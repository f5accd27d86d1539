/** What zero/db/db_query.cc builds, read off the calls: for every chain of calls the text of each statement as
    one concatenation, and its values in the order of their placeholders. */
module QueryText {
  import opened Identifiers
  import opened Options
  import opened QueryClauses
  import opened QueryLaws
  import opened RowCodec
  import opened SqlText

  // ---------------------------------------------------------------- documents as text

  function TextOf(d: Doc): string {
    match d
    case Empty => ""
    case Word(w) => w
    case Sql(t) => t
    case Bound(_) => "?"
    case Raw(t, _) => t
    case Then(a, b) => TextOf(a) + TextOf(b)
    case Three(a, b, c) => TextOf(a) + TextOf(b) + TextOf(c)
    case Four(a, b, c, e) => TextOf(a) + TextOf(b) + TextOf(c) + TextOf(e)
  }

  lemma RegroupText(p: string, a: string, b: string, c: string, e: string)
    ensures p + a + b == p + (a + b)
    ensures p + a + b + c == p + (a + b + c)
    ensures p + a + b + c + e == p + (a + b + c + e)
  {
  }

  lemma {:induction false} AppendText(out: Out, d: Doc)
    ensures Append(out, d).sql == out.sql + TextOf(d)
    decreases d
  {
    match d
    case Empty => assert out.sql + "" == out.sql;
    case Then(a, b) =>
      AppendText(out, a);
      AppendText(Append(out, a), b);
      RegroupText(out.sql, TextOf(a), TextOf(b), "", "");
    case Three(a, b, c) =>
      AppendText(out, a);
      AppendText(Append(out, a), b);
      AppendText(Append(Append(out, a), b), c);
      RegroupText(out.sql, TextOf(a), TextOf(b), TextOf(c), "");
    case Four(a, b, c, e) =>
      AppendText(out, a);
      AppendText(Append(out, a), b);
      AppendText(Append(Append(out, a), b), c);
      AppendText(Append(Append(Append(out, a), b), c), e);
      RegroupText(out.sql, TextOf(a), TextOf(b), TextOf(c), TextOf(e));
    case _ =>
  }

  lemma Whole(d: Doc)
    ensures Append(EMPTY, d) == Out(TextOf(d), ValuesOf(d))
  {
    AppendText(EMPTY, d);
    AppendValues(EMPTY, d);
    assert "" + TextOf(d) == TextOf(d) && [] + ValuesOf(d) == ValuesOf(d);
  }

  // ---------------------------------------------------------------- lists

  /** The texts, with `between` between them. */
  function Joined(texts: seq<string>, between: string): string {
    if texts == [] then ""
    else if |texts| == 1 then texts[0]
    else Joined(texts[..|texts| - 1], between) + between + texts[|texts| - 1]
  }

  /** `n` placeholders, separated by commas. */
  function Marks(n: nat): string {
    if n == 0 then "" else if n == 1 then "?" else Marks(n - 1) + ", ?"
  }

  function Names(columns: seq<string>): (r: seq<string>)
    ensures |r| == |columns|
  {
    seq(|columns|, i requires 0 <= i < |columns| => Escaped(columns[i]))
  }

  // ---------------------------------------------------------------- what the calls ask for

  datatype Condition = Condition(link: string, text: string, values: seq<Value>)

  predicate IsList(op: string) {
    op in {"in", "IN", "not in", "NOT IN"}
  }

  /** The SQL of a comparison operator; an unknown one is taken for equality. */
  function Sign(op: string): string {
    if op in {"!=", "<>"} then "!="
    else if op in {">", ">=", "<", "<="} then op
    else if op in {"like", "LIKE"} then "LIKE"
    else if op in {"not like", "NOT LIKE"} then "NOT LIKE"
    else if op in {"in", "IN"} then "IN"
    else if op in {"not in", "NOT IN"} then "NOT IN"
    else "="
  }

  /** The condition a call adds, if it adds one. A single value under a list operator is not bound. */
  function ConditionOf(c: Call): seq<Condition> {
    match c
    case Where(column, op, value, link) =>
      if IsList(op) then [Condition(link, Escaped(column) + " " + Sign(op) + " ()", [])]
      else [Condition(link, Escaped(column) + " " + Sign(op) + " ?", [value])]
    case WhereNull(column, negated) =>
      [Condition("AND", Escaped(column) + (if negated then " IS NOT NULL" else " IS NULL"), [])]
    case WhereIn(column, values, negated) =>
      [Condition("AND", Escaped(column) + (if negated then " NOT IN (" else " IN (") + Marks(|values|) + ")", values)]
    case WhereRaw(raw, params, link) => [Condition(link, "(" + raw + ")", params)]
    case WhereBetween(column, lo, hi) => [Condition("AND", "(" + Escaped(column) + " BETWEEN ? AND ?)", [lo, hi])]
    case _ => []
  }

  function Conditions(calls: seq<Call>): seq<Condition> {
    if calls == [] then [] else Conditions(calls[..|calls| - 1]) + ConditionOf(calls[|calls| - 1])
  }

  function GroupConditions(calls: seq<Call>): seq<Condition> {
    if calls == [] then []
    else
      GroupConditions(calls[..|calls| - 1]) +
      match calls[|calls| - 1]
      case Having(raw, params, link) => [Condition(link, "(" + raw + ")", params)]
      case _ => []
  }

  /** The conditions in call order, each but the first behind its link, AND if it has none. */
  function Chain(conditions: seq<Condition>): string {
    if conditions == [] then ""
    else if |conditions| == 1 then conditions[0].text
    else
      var last := conditions[|conditions| - 1];
      Chain(conditions[..|conditions| - 1]) + (" " + (if last.link == "" then "AND" else last.link) + " ") + last.text
  }

  /** Their values, likewise. */
  function ChainValues(conditions: seq<Condition>): seq<Value> {
    if conditions == [] then []
    else ChainValues(conditions[..|conditions| - 1]) + conditions[|conditions| - 1].values
  }

  function WhereText(calls: seq<Call>): string {
    if Conditions(calls) == [] then "" else " WHERE " + Chain(Conditions(calls))
  }

  function WhereValues(calls: seq<Call>): seq<Value> {
    ChainValues(Conditions(calls))
  }

  /** The setting of the last call that sets it. */
  function TableOf(table: string, calls: seq<Call>): string {
    if calls == [] then table
    else match calls[|calls| - 1]
         case Table(t) => t
         case _ => TableOf(table, calls[..|calls| - 1])
  }

  function ColumnsOf(calls: seq<Call>): seq<string> {
    if calls == [] then []
    else match calls[|calls| - 1]
         case Select(columns) => columns
         case _ => ColumnsOf(calls[..|calls| - 1])
  }

  function LimitOf(calls: seq<Call>): nat {
    if calls == [] then 0
    else match calls[|calls| - 1]
         case Limit(n) => n
         case _ => LimitOf(calls[..|calls| - 1])
  }

  function OffsetOf(calls: seq<Call>): nat {
    if calls == [] then 0
    else match calls[|calls| - 1]
         case Offset(n) => n
         case _ => OffsetOf(calls[..|calls| - 1])
  }

  function LockOf(calls: seq<Call>): LockMode {
    if calls == [] then NoLock
    else match calls[|calls| - 1]
         case Lock(mode) => mode
         case _ => LockOf(calls[..|calls| - 1])
  }

  /** The texts of all calls of a kind, in call order. */
  function GroupsOf(calls: seq<Call>): seq<string> {
    if calls == [] then []
    else
      GroupsOf(calls[..|calls| - 1]) +
      match calls[|calls| - 1]
      case GroupBy(column) => [Escaped(column)]
      case _ => []
  }

  function OrdersOf(calls: seq<Call>): seq<string> {
    if calls == [] then []
    else
      OrdersOf(calls[..|calls| - 1]) +
      match calls[|calls| - 1]
      case OrderBy(column, asc) => [Escaped(column) + (if asc then " ASC" else " DESC")]
      case _ => []
  }

  function JoinText(calls: seq<Call>): string {
    if calls == [] then ""
    else
      JoinText(calls[..|calls| - 1]) +
      match calls[|calls| - 1]
      case AddJoin(kind, table, on) => " " + kind + " " + (Escaped(table) + " ON " + on)
      case _ => ""
  }

  function HavingText(calls: seq<Call>): string {
    if GroupConditions(calls) == [] then "" else " HAVING " + Chain(GroupConditions(calls))
  }

  /** Group conditions are only put out behind groups. */
  function GroupText(calls: seq<Call>): string {
    if GroupsOf(calls) == [] then ""
    else " GROUP BY " + Joined(GroupsOf(calls), ", ") + HavingText(calls)
  }

  function GroupValues(calls: seq<Call>): seq<Value> {
    if GroupsOf(calls) == [] then [] else ChainValues(GroupConditions(calls))
  }

  function OrderText(calls: seq<Call>): string {
    if OrdersOf(calls) == [] then "" else " ORDER BY " + Joined(OrdersOf(calls), ", ")
  }

  function PageText(calls: seq<Call>): string {
    (if LimitOf(calls) > 0 then " LIMIT " + Decimal(LimitOf(calls)) else "")
    + (if OffsetOf(calls) > 0 then " OFFSET " + Decimal(OffsetOf(calls)) else "")
  }

  function LockText(calls: seq<Call>): string {
    match LockOf(calls)
    case NoLock => ""
    case ForUpdate => " FOR UPDATE"
    case LockInShareMode => " LOCK IN SHARE MODE"
  }

  function SelectedText(calls: seq<Call>): string {
    if ColumnsOf(calls) == [] then "*" else Joined(Names(ColumnsOf(calls)), ", ")
  }

  // ---------------------------------------------------------------- the clauses are those of the calls

  /** The clauses stand for the conditions, one by one. */
  predicate StandFor(clauses: seq<WhereClause>, conditions: seq<Condition>) {
    && |clauses| == |conditions|
    && forall i | 0 <= i < |clauses| :: ClauseStands(clauses[i], conditions[i], i)
  }

  predicate ClauseStands(w: WhereClause, c: Condition, i: nat) {
    && TextOf(ClauseDoc(w)) == c.text && ValuesOf(ClauseDoc(w)) == c.values
    && (i > 0 ==> w.conjunction == c.link)
  }

  lemma {:induction false} MarksText(values: seq<Value>, n: nat)
    requires n <= |values|
    ensures TextOf(ValueList(values, n)) == Marks(n) && ValuesOf(ValueList(values, n)) == values[..n]
  {
    if n > 0 {
      MarksText(values, n - 1);
      ValuesOfList(values, n);
      assert n == 1 ==> "" + "" + "?" == "?";
      assert n > 1 ==> Marks(n - 1) + ", " + "?" == Marks(n - 1) + ", ?";
    }
  }

  lemma OpText(w: WhereClause)
    ensures TextOf(OpWord(w)) == Escaped(w.column) + " " + OpToString(w.op) + " " && ValuesOf(OpWord(w)) == []
  {
  }

  lemma SignText(op: string)
    ensures OpToString(ParseOp(op)) == Sign(op)
  {
  }

  lemma ListSign(op: string)
    ensures ParseOp(op) in {IN, NOT_IN} <==> IsList(op)
    ensures ParseOp(op) !in {RAW, IS_NULL, IS_NOT_NULL}
  {
  }

  lemma ListedText(values: seq<Value>)
    ensures TextOf(Listed(values)) == "(" + Marks(|values|) + ")" && ValuesOf(Listed(values)) == values
  {
    MarksText(values, |values|);
    assert values[..|values|] == values;
    NoMoreValues(values);
  }

  lemma NoMoreValues(values: seq<Value>)
    ensures [] + values == values && values + [] == values && [] + values + [] == values
  {
  }

  /** A space may stand before or behind the seam. */
  lemma Spaced(a: string, m: string)
    ensures (a + " ") + ("(" + m + ")") == a + " (" + m + ")"
    ensures a + " (" + "" + ")" == a + " ()"
    ensures a + " " + "NOT IN" + " (" == a + " NOT IN (" && a + " " + "IN" + " (" == a + " IN ("
  {
  }

  lemma InText(w: WhereClause)
    requires w.op.IN? || w.op.NOT_IN?
    ensures TextOf(ClauseDoc(w)) == Escaped(w.column) + " " + OpToString(w.op) + " (" + Marks(|w.values|) + ")"
    ensures ValuesOf(ClauseDoc(w)) == w.values
  {
    OpText(w);
    ListedText(w.values);
    Spaced(Escaped(w.column) + " " + OpToString(w.op), Marks(|w.values|));
    NoMoreValues(w.values);
  }

  lemma CompareText(w: WhereClause)
    requires w.op !in {IN, NOT_IN, RAW, IS_NULL, IS_NOT_NULL}
    ensures TextOf(ClauseDoc(w)) == Escaped(w.column) + " " + OpToString(w.op) + " ?"
    ensures ValuesOf(ClauseDoc(w)) == [w.value]
  {
    OpText(w);
    var head := Escaped(w.column) + " " + OpToString(w.op);
    assert head + " " + "?" == head + " ?";
    assert [] + [w.value] == [w.value];
  }

  lemma RawText(w: WhereClause)
    requires w.op.RAW?
    ensures TextOf(ClauseDoc(w)) == "(" + w.raw + ")" && ValuesOf(ClauseDoc(w)) == w.rawParams
  {
    assert [] + w.rawParams + [] == w.rawParams;
  }

  lemma WhereStands(column: string, op: string, value: Value, link: Plain, conjunction: Plain, i: nat)
    requires i > 0 ==> conjunction == link
    ensures ClauseStands(WhereClause(column, ParseOp(op), value, [], "", [], conjunction),
                         ConditionOf(Where(column, op, value, link))[0], i)
  {
    var w := WhereClause(column, ParseOp(op), value, [], "", [], conjunction);
    SignText(op);
    ListSign(op);
    if IsList(op) {
      InText(w);
      Spaced(Escaped(column) + " " + OpToString(w.op), "");
    } else {
      CompareText(w);
    }
  }

  lemma NullStands(column: string, negated: bool, conjunction: Plain, i: nat)
    requires i > 0 ==> conjunction == "AND"
    ensures ClauseStands(WhereClause(column, if negated then IS_NOT_NULL else IS_NULL, Null, [], "", [], conjunction),
                         ConditionOf(WhereNull(column, negated))[0], i)
  {
    NullText(WhereClause(column, if negated then IS_NOT_NULL else IS_NULL, Null, [], "", [], conjunction));
  }

  lemma NullText(w: WhereClause)
    requires w.op.IS_NULL? || w.op.IS_NOT_NULL?
    ensures TextOf(ClauseDoc(w)) == Escaped(w.column) + (if w.op.IS_NULL? then " IS NULL" else " IS NOT NULL")
    ensures ValuesOf(ClauseDoc(w)) == []
  {
  }

  lemma InStands(column: string, values: seq<Value>, negated: bool, conjunction: Plain, i: nat)
    requires i > 0 ==> conjunction == "AND"
    ensures ClauseStands(WhereClause(column, if negated then NOT_IN else IN, Null, values, "", [], conjunction),
                         ConditionOf(WhereIn(column, values, negated))[0], i)
  {
    var w := WhereClause(column, if negated then NOT_IN else IN, Null, values, "", [], conjunction);
    InText(w);
    Spaced(Escaped(column), "");
  }

  lemma BetweenStands(column: string, lo: Value, hi: Value, conjunction: Plain, i: nat)
    requires i > 0 ==> conjunction == "AND"
    ensures ClauseStands(WhereClause("", RAW, Null, [], BetweenText(column), [lo, hi], conjunction),
                         ConditionOf(WhereBetween(column, lo, hi))[0], i)
  {
    RawText(WhereClause("", RAW, Null, [], BetweenText(column), [lo, hi], conjunction));
    BetweenParts(Escaped(column));
  }

  lemma BetweenParts(e: string)
    ensures BETWEEN == " BETWEEN ? AND ?"
    ensures "(" + (e + " BETWEEN ? AND ?") + ")" == "(" + e + " BETWEEN ? AND ?)"
  {
  }

  lemma RawStands(raw: string, params: seq<Value>, link: Plain, conjunction: Plain, i: nat)
    requires i > 0 ==> conjunction == link
    ensures ClauseStands(WhereClause("", RAW, Null, [], raw, params, conjunction), Condition(link, "(" + raw + ")", params), i)
  {
    RawText(WhereClause("", RAW, Null, [], raw, params, conjunction));
  }

  lemma StandForMore(clauses: seq<WhereClause>, conditions: seq<Condition>, w: WhereClause, c: Condition)
    requires StandFor(clauses, conditions) && ClauseStands(w, c, |clauses|)
    ensures StandFor(clauses + [w], conditions + [c])
  {
  }

  /** One call more. */
  lemma CallStands(q: Query, conditions: seq<Condition>, c: Call)
    requires StandFor(q.wheres, conditions)
    ensures StandFor(Apply(q, c).wheres, conditions + ConditionOf(c))
  {
    var i := |q.wheres|;
    match c
    case Where(column, op, value, link) =>
      WhereStands(column, op, value, link, Linked(q.wheres, link), i);
      StandForMore(q.wheres, conditions, Apply(q, c).wheres[i], ConditionOf(c)[0]);
    case WhereNull(column, negated) =>
      NullStands(column, negated, Linked(q.wheres, "AND"), i);
      StandForMore(q.wheres, conditions, Apply(q, c).wheres[i], ConditionOf(c)[0]);
    case WhereIn(column, values, negated) =>
      InStands(column, values, negated, Linked(q.wheres, "AND"), i);
      StandForMore(q.wheres, conditions, Apply(q, c).wheres[i], ConditionOf(c)[0]);
    case WhereRaw(raw, params, link) =>
      RawStands(raw, params, link, Linked(q.wheres, link), i);
      StandForMore(q.wheres, conditions, Apply(q, c).wheres[i], ConditionOf(c)[0]);
    case WhereBetween(column, lo, hi) =>
      BetweenStands(column, lo, hi, Linked(q.wheres, "AND"), i);
      StandForMore(q.wheres, conditions, Apply(q, c).wheres[i], ConditionOf(c)[0]);
    case _ =>
      assert conditions + [] == conditions;
  }

  lemma LinkText(w: WhereClause, c: Condition, i: nat)
    requires 0 < i && ClauseStands(w, c, i)
    ensures TextOf(Link(w, i)) == " " + (if c.link == "" then "AND" else c.link) + " " && ValuesOf(Link(w, i)) == []
  {
  }

  lemma NothingBefore(s: string, vs: seq<Value>)
    ensures "" + s == s && s + "" == s && "" + "" + s == s && [] + vs == vs && [] + [] + vs == vs
  {
  }

  lemma TextAssoc(a: string, b: string, c: string)
    ensures a + (b + c) == a + b + c
  {
  }

  lemma LinkedText(w: WhereClause, c: Condition, i: nat)
    requires ClauseStands(w, c, i)
    ensures TextOf(LinkedDoc(w, i))
         == if i == 0 then c.text else " " + (if c.link == "" then "AND" else c.link) + " " + c.text
    ensures ValuesOf(LinkedDoc(w, i)) == c.values
  {
    NothingBefore(c.text, c.values);
    if i > 0 {
      LinkText(w, c, i);
    }
  }

  lemma ChainStep(conditions: seq<Condition>, n: nat)
    requires 0 < n <= |conditions|
    ensures var last := conditions[n - 1];
            && Chain(conditions[..n])
                 == (if n == 1 then last.text
                     else Chain(conditions[..n - 1]) + (" " + (if last.link == "" then "AND" else last.link) + " ") + last.text)
            && ChainValues(conditions[..n]) == ChainValues(conditions[..n - 1]) + last.values
  {
    assert conditions[..n][..n - 1] == conditions[..n - 1];
  }

  lemma {:induction false} ListStands(clauses: seq<WhereClause>, conditions: seq<Condition>, n: nat)
    requires StandFor(clauses, conditions) && n <= |clauses|
    ensures TextOf(WhereList(clauses, n)) == Chain(conditions[..n])
    ensures ValuesOf(WhereList(clauses, n)) == ChainValues(conditions[..n])
  {
    if n > 0 {
      var w, c := clauses[n - 1], conditions[n - 1];
      ListStands(clauses, conditions, n - 1);
      assert ClauseStands(w, c, n - 1);
      LinkedText(w, c, n - 1);
      ChainStep(conditions, n);
      NothingBefore(c.text, c.values);
      TextAssoc(Chain(conditions[..n - 1]), " " + (if c.link == "" then "AND" else c.link) + " ", c.text);
    }
  }

  lemma WhereDocText(q: Query, calls: seq<Call>)
    requires StandFor(q.wheres, Conditions(calls))
    ensures TextOf(WhereDoc(q)) == WhereText(calls) && ValuesOf(WhereDoc(q)) == WhereValues(calls)
  {
    var conditions := Conditions(calls);
    ListStands(q.wheres, conditions, |q.wheres|);
    assert conditions[..|conditions|] == conditions;
    NothingBefore("", ChainValues(conditions));
  }

  /** The conditions on groups are all raw. */
  predicate RawOnly(clauses: seq<WhereClause>) {
    forall i | 0 <= i < |clauses| :: clauses[i].op.RAW?
  }

  lemma {:induction false} HavingStands(havings: seq<WhereClause>, n: nat)
    requires n <= |havings| && RawOnly(havings)
    ensures TextOf(HavingList(havings, n)) == TextOf(WhereList(havings, n))
    ensures ValuesOf(HavingList(havings, n)) == ValuesOf(WhereList(havings, n))
  {
    if n > 0 {
      HavingStands(havings, n - 1);
      SameShape(HavingList(havings, n - 1), WhereList(havings, n - 1), Link(havings[n - 1], n - 1), RawClause(havings[n - 1]));
    }
  }

  lemma SameShape(a: Doc, b: Doc, link: Doc, clause: Doc)
    requires TextOf(a) == TextOf(b) && ValuesOf(a) == ValuesOf(b)
    ensures TextOf(Three(a, link, clause)) == TextOf(Then(b, Then(link, clause)))
    ensures ValuesOf(Three(a, link, clause)) == ValuesOf(Then(b, Then(link, clause)))
  {
    TextAssoc(TextOf(a), TextOf(link), TextOf(clause));
    ValuesAssoc(ValuesOf(a), ValuesOf(link), ValuesOf(clause));
  }

  lemma ValuesAssoc(a: seq<Value>, b: seq<Value>, c: seq<Value>)
    ensures a + (b + c) == a + b + c
  {
  }

  lemma HavingDocText(q: Query, calls: seq<Call>)
    requires StandFor(q.havings, GroupConditions(calls)) && RawOnly(q.havings)
    ensures TextOf(HavingDoc(q)) == HavingText(calls)
    ensures ValuesOf(HavingDoc(q)) == ChainValues(GroupConditions(calls))
  {
    var conditions := GroupConditions(calls);
    HavingStands(q.havings, |q.havings|);
    ListStands(q.havings, conditions, |q.havings|);
    assert conditions[..|conditions|] == conditions;
    NothingBefore("", ChainValues(conditions));
  }

  // ---------------------------------------------------------------- lists of texts

  lemma JoinedStep(texts: seq<string>, n: nat)
    requires 0 < n <= |texts|
    ensures Joined(texts[..n], ", ") == if n == 1 then texts[0] else Joined(texts[..n - 1], ", ") + ", " + texts[n - 1]
  {
    assert texts[..n][..n - 1] == texts[..n - 1];
  }

  lemma {:induction false} TextListText(texts: seq<string>, n: nat)
    requires n <= |texts|
    ensures TextOf(TextList(texts, n)) == Joined(texts[..n], ", ") && ValuesOf(TextList(texts, n)) == []
  {
    if n > 0 {
      TextListText(texts, n - 1);
      JoinedStep(texts, n);
      NothingBefore(texts[n - 1], []);
    }
  }

  lemma {:induction false} ColumnListText(columns: seq<string>, n: nat)
    requires n <= |columns|
    ensures TextOf(ColumnList(columns, n)) == Joined(Names(columns)[..n], ", ") && ValuesOf(ColumnList(columns, n)) == []
  {
    if n > 0 {
      ColumnListText(columns, n - 1);
      JoinedStep(Names(columns), n);
      NothingBefore(Escaped(columns[n - 1]), []);
    }
  }

  predicate OrdersStand(orders: seq<OrderByClause>, texts: seq<string>) {
    |orders| == |texts| && forall i | 0 <= i < |orders| :: TextOf(OrderDocOf(orders[i])) == texts[i]
  }

  lemma {:induction false} OrderListText(orders: seq<OrderByClause>, texts: seq<string>, n: nat)
    requires n <= |orders| && OrdersStand(orders, texts)
    ensures TextOf(OrderList(orders, n)) == Joined(texts[..n], ", ") && ValuesOf(OrderList(orders, n)) == []
  {
    if n > 0 {
      OrderListText(orders, texts, n - 1);
      JoinedStep(texts, n);
      assert ValuesOf(OrderDocOf(orders[n - 1])) == [];
      NothingBefore(texts[n - 1], []);
    }
  }

  // ---------------------------------------------------------------- the clauses of a chain of calls

  /** The query holds what the calls ask for. */
  predicate Collects(q: Query, table: string, calls: seq<Call>) {
    && q.table == TableOf(table, calls) && q.columns == ColumnsOf(calls)
    && StandFor(q.wheres, Conditions(calls)) && StandFor(q.havings, GroupConditions(calls)) && RawOnly(q.havings)
    && TextOf(JoinList(q.joins, |q.joins|)) == JoinText(calls) && ValuesOf(JoinList(q.joins, |q.joins|)) == []
    && q.groupBy == GroupsOf(calls) && OrdersStand(q.orderBy, OrdersOf(calls))
    && q.limit == LimitOf(calls) && q.offset == OffsetOf(calls) && q.lock == LockOf(calls)
  }

  lemma HavingsCollected(q: Query, conditions: seq<Condition>, c: Call)
    requires StandFor(q.havings, conditions) && RawOnly(q.havings)
    ensures StandFor(Apply(q, c).havings,
                     conditions + if c.Having? then [Condition(c.conjunction, "(" + c.raw + ")", c.params)] else [])
    ensures RawOnly(Apply(q, c).havings)
  {
    if c.Having? {
      var i := |q.havings|;
      RawStands(c.raw, c.params, c.conjunction, Linked(q.havings, c.conjunction), i);
      StandForMore(q.havings, conditions, Apply(q, c).havings[i], Condition(c.conjunction, "(" + c.raw + ")", c.params));
    } else {
      assert conditions + [] == conditions;
    }
  }

  lemma {:induction false} JoinListFront(joins: seq<Join>, more: seq<Join>, n: nat)
    requires n <= |joins|
    ensures JoinList(joins + more, n) == JoinList(joins, n)
  {
    if n > 0 {
      JoinListFront(joins, more, n - 1);
    }
  }

  lemma JoinDocText(j: Join)
    ensures TextOf(JoinDoc(j)) == " " + j.kind + " " + j.sql && ValuesOf(JoinDoc(j)) == []
  {
  }

  lemma OneJoin(joins: seq<Join>, j: Join)
    ensures JoinList(joins + [j], |joins| + 1) == Then(JoinList(joins, |joins|), JoinDoc(j))
  {
    JoinListFront(joins, [j], |joins|);
  }

  lemma JoinsCollected(q: Query, text: string, c: Call)
    requires TextOf(JoinList(q.joins, |q.joins|)) == text && ValuesOf(JoinList(q.joins, |q.joins|)) == []
    ensures var joins := Apply(q, c).joins;
            && TextOf(JoinList(joins, |joins|))
                 == text + (if c.AddJoin? then " " + c.kind + " " + (Escaped(c.table) + " ON " + c.on) else "")
            && ValuesOf(JoinList(joins, |joins|)) == []
  {
    if c.AddJoin? {
      var j := Join(c.kind, Escaped(c.table) + " ON " + c.on);
      OneJoin(q.joins, j);
      JoinDocText(j);
      ThenParts(JoinList(q.joins, |q.joins|), JoinDoc(j));
      NoMoreValues([]);
      assert Apply(q, c).joins == q.joins + [j];
    } else {
      NothingBefore(text, []);
    }
  }

  lemma OrderStands(column: string, asc: bool)
    ensures TextOf(OrderDocOf(OrderByClause(column, asc))) == column + (if asc then " ASC" else " DESC")
  {
  }

  lemma OrdersCollected(q: Query, texts: seq<string>, c: Call)
    requires OrdersStand(q.orderBy, texts)
    ensures OrdersStand(Apply(q, c).orderBy,
                        texts + if c.OrderBy? then [Escaped(c.column) + (if c.asc then " ASC" else " DESC")] else [])
  {
    if c.OrderBy? {
      OrderStands(Escaped(c.column), c.asc);
    } else {
      assert texts + [] == texts;
    }
  }

  lemma GroupsCollected(q: Query, texts: seq<string>, c: Call)
    requires q.groupBy == texts
    ensures Apply(q, c).groupBy == texts + if c.GroupBy? then [Escaped(c.column)] else []
  {
    if !c.GroupBy? {
      assert texts + [] == texts;
    }
  }

  lemma {:induction false} ChainCollects(table: string, calls: seq<Call>)
    ensures Collects(Built(NewQuery(table), calls), table, calls)
  {
    if calls != [] {
      var front, c := calls[..|calls| - 1], calls[|calls| - 1];
      var q := Built(NewQuery(table), front);
      ChainCollects(table, front);
      CallStands(q, Conditions(front), c);
      HavingsCollected(q, GroupConditions(front), c);
      JoinsCollected(q, JoinText(front), c);
      OrdersCollected(q, OrdersOf(front), c);
      GroupsCollected(q, GroupsOf(front), c);
      SettingsCollected(q, table, calls, c);
    }
  }

  lemma SettingsCollected(q: Query, table: string, calls: seq<Call>, c: Call)
    requires calls != [] && c == calls[|calls| - 1]
    requires var front := calls[..|calls| - 1];
             && q.table == TableOf(table, front) && q.columns == ColumnsOf(front)
             && q.limit == LimitOf(front) && q.offset == OffsetOf(front) && q.lock == LockOf(front)
    ensures var after := Apply(q, c);
            && after.table == TableOf(table, calls) && after.columns == ColumnsOf(calls)
            && after.limit == LimitOf(calls) && after.offset == OffsetOf(calls) && after.lock == LockOf(calls)
  {
  }

  // ---------------------------------------------------------------- statements

  lemma PageDocText(q: Query, table: string, calls: seq<Call>)
    requires Collects(q, table, calls)
    ensures TextOf(LimitDoc(q)) == PageText(calls) && ValuesOf(LimitDoc(q)) == []
  {
    CountedText(" LIMIT ", q.limit);
    CountedText(" OFFSET ", q.offset);
  }

  lemma CountedText(word: Plain, n: nat)
    ensures TextOf(Counted(word, n)) == (if n > 0 then word + Decimal(n) else "") && ValuesOf(Counted(word, n)) == []
  {
  }

  lemma GroupDocText(q: Query, table: string, calls: seq<Call>)
    requires Collects(q, table, calls)
    ensures TextOf(GroupDoc(q)) == GroupText(calls) && ValuesOf(GroupDoc(q)) == GroupValues(calls)
  {
    TextListText(q.groupBy, |q.groupBy|);
    assert q.groupBy[..|q.groupBy|] == q.groupBy;
    HavingDocText(q, calls);
    NothingBefore("", ChainValues(GroupConditions(calls)));
  }

  lemma OrderDocText(q: Query, table: string, calls: seq<Call>)
    requires Collects(q, table, calls)
    ensures TextOf(OrderDoc(q)) == OrderText(calls) && ValuesOf(OrderDoc(q)) == []
  {
    var texts := OrdersOf(calls);
    OrderListText(q.orderBy, texts, |texts|);
    assert texts[..|texts|] == texts;
  }

  lemma SelectHeadText(q: Query, table: string, calls: seq<Call>)
    requires Collects(q, table, calls)
    ensures TextOf(SelectHead(q)) == "SELECT " + SelectedText(calls) + " FROM " + Escaped(TableOf(table, calls))
    ensures ValuesOf(SelectHead(q)) == []
  {
    SelectListText(q, calls);
  }

  lemma SelectListText(q: Query, calls: seq<Call>)
    requires q.columns == ColumnsOf(calls)
    ensures TextOf(SelectList(q)) == SelectedText(calls) && ValuesOf(SelectList(q)) == []
  {
    var names := Names(q.columns);
    ColumnListText(q.columns, |q.columns|);
    assert names[..|names|] == names;
  }

  /** Values behind one another, where some parts have none. */
  lemma OnlyValues(a: seq<Value>, b: seq<Value>)
    ensures [] + [] + a + b == a + b && a + b + [] == a + b && [] + a + [] == a && [] + a == a && a + [] == a
    ensures [] + [] + a == a && [] + a + [] + [] == a && a + b + [] + [] == a + b && [] + a + b + [] == a + b
  {
  }

  lemma SelectFrontText(q: Query, table: string, calls: seq<Call>)
    requires Collects(q, table, calls)
    ensures TextOf(SelectFront(q)) == "SELECT " + SelectedText(calls) + " FROM " + Escaped(TableOf(table, calls))
                                      + JoinText(calls) + WhereText(calls) + GroupText(calls)
    ensures ValuesOf(SelectFront(q)) == WhereValues(calls) + GroupValues(calls)
  {
    SelectHeadText(q, table, calls);
    WhereDocText(q, calls);
    GroupDocText(q, table, calls);
    OnlyValues(WhereValues(calls), GroupValues(calls));
  }

  lemma LockDocText(q: Query, table: string, calls: seq<Call>)
    requires Collects(q, table, calls)
    ensures TextOf(LockDoc(q)) == LockText(calls) && ValuesOf(LockDoc(q)) == []
  {
  }

  /** SELECT: columns, table, joins, conditions, groups, order, page and lock, in this order. */
  lemma SelectStatement(table: string, calls: seq<Call>)
    ensures Append(EMPTY, SelectDoc(Built(NewQuery(table), calls))) ==
              Out("SELECT " + SelectedText(calls) + " FROM " + Escaped(TableOf(table, calls))
                  + JoinText(calls) + WhereText(calls) + GroupText(calls)
                  + OrderText(calls) + PageText(calls) + LockText(calls),
                  WhereValues(calls) + GroupValues(calls))
  {
    var q := Built(NewQuery(table), calls);
    ChainCollects(table, calls);
    Whole(SelectDoc(q));
    SelectFrontText(q, table, calls);
    OrderDocText(q, table, calls);
    PageDocText(q, table, calls);
    LockDocText(q, table, calls);
    OnlyValues(WhereValues(calls), GroupValues(calls));
  }

  lemma WordsText()
    ensures TextOf(SELECT_COUNT) == "SELECT COUNT(" && TextOf(AS_COUNT_FROM) == ") AS cnt FROM "
    ensures TextOf(DELETE_FROM) == "DELETE FROM " && TextOf(INSERT_INTO) == "INSERT INTO "
    ensures TextOf(VALUES_OPEN) == ") VALUES (" && TextOf(VALUES) == ") VALUES "
    ensures TextOf(IGNORE_DUPLICATE) == " ON DUPLICATE KEY UPDATE id=id"
    ensures TextOf(ON_DUPLICATE) == " ON DUPLICATE KEY UPDATE "
  {
  }

  lemma WordsValues()
    ensures ValuesOf(SELECT_COUNT) == [] && ValuesOf(AS_COUNT_FROM) == [] && ValuesOf(DELETE_FROM) == []
    ensures ValuesOf(INSERT_INTO) == [] && ValuesOf(VALUES_OPEN) == [] && ValuesOf(VALUES) == []
    ensures ValuesOf(IGNORE_DUPLICATE) == [] && ValuesOf(ON_DUPLICATE) == []
  {
  }

  /** What three parts make, the first of them without values. */
  lemma ThreeParts(a: Doc, b: Doc, c: Doc)
    requires ValuesOf(a) == []
    ensures TextOf(Three(a, b, c)) == TextOf(a) + TextOf(b) + TextOf(c)
    ensures ValuesOf(Three(a, b, c)) == ValuesOf(b) + ValuesOf(c)
  {
    OnlyValues(ValuesOf(b), ValuesOf(c));
  }

  lemma FourParts(a: Doc, b: Doc, c: Doc, e: Doc)
    requires ValuesOf(a) == [] && ValuesOf(b) == []
    ensures TextOf(Four(a, b, c, e)) == TextOf(a) + TextOf(b) + TextOf(c) + TextOf(e)
    ensures ValuesOf(Four(a, b, c, e)) == ValuesOf(c) + ValuesOf(e)
  {
    OnlyValues(ValuesOf(c), ValuesOf(e));
  }

  lemma ThenParts(a: Doc, b: Doc)
    ensures TextOf(Then(a, b)) == TextOf(a) + TextOf(b) && ValuesOf(Then(a, b)) == ValuesOf(a) + ValuesOf(b)
  {
  }

  lemma NameText(column: string)
    ensures TextOf(Name(column)) == Escaped(column) && ValuesOf(Name(column)) == []
  {
  }

  lemma CountHeadText(q: Query, column: string)
    ensures TextOf(CountHead(q, column)) == "SELECT COUNT(" + Escaped(column) + ") AS cnt FROM " + Escaped(q.table)
    ensures ValuesOf(CountHead(q, column)) == []
  {
    WordsText();
    WordsValues();
    NameText(column);
    NameText(q.table);
    FourParts(SELECT_COUNT, Name(column), AS_COUNT_FROM, Name(q.table));
  }

  /** COUNT, under the same joins and conditions. */
  lemma CountStatement(table: string, calls: seq<Call>, column: string)
    ensures Append(EMPTY, CountDoc(Built(NewQuery(table), calls), column)) ==
              Out("SELECT COUNT(" + Escaped(column) + ") AS cnt FROM " + Escaped(TableOf(table, calls))
                  + JoinText(calls) + WhereText(calls), WhereValues(calls))
  {
    var q := Built(NewQuery(table), calls);
    ChainCollects(table, calls);
    Whole(CountDoc(q, column));
    CountHeadText(q, column);
    WhereDocText(q, calls);
    ThreeParts(CountHead(q, column), JoinList(q.joins, |q.joins|), WhereDoc(q));
    OnlyValues(WhereValues(calls), []);
  }

  /** DELETE, under every condition a call added, in call order. */
  lemma DeleteStatement(table: string, calls: seq<Call>)
    ensures Append(EMPTY, DeleteDoc(Built(NewQuery(table), calls))) ==
              Out("DELETE FROM " + Escaped(TableOf(table, calls)) + WhereText(calls) + PageText(calls), WhereValues(calls))
  {
    var q := Built(NewQuery(table), calls);
    ChainCollects(table, calls);
    Whole(DeleteDoc(q));
    WordsText();
    WordsValues();
    NameText(q.table);
    WhereDocText(q, calls);
    PageDocText(q, table, calls);
    FourParts(DELETE_FROM, Name(q.table), WhereDoc(q), LimitDoc(q));
    OnlyValues(WhereValues(calls), []);
  }

  /** One assignment a column. */
  function Assignments(columns: seq<string>): (r: seq<string>)
    ensures |r| == |columns|
  {
    seq(|columns|, i requires 0 <= i < |columns| => Escaped(columns[i]) + " = ?")
  }

  lemma AssignText(column: string, value: Value)
    ensures TextOf(AssignDoc(column, value)) == Escaped(column) + " = ?" && ValuesOf(AssignDoc(column, value)) == [value]
  {
    NameText(column);
    assert TextOf(ASSIGN) == " = " && ValuesOf(ASSIGN) == [];
    ThreeParts(Name(column), ASSIGN, Bound(value));
    Equals(Escaped(column));
    OnlyValues([value], []);
  }

  lemma Equals(e: string)
    ensures e + " = " + "?" == e + " = ?"
  {
  }

  /** An item more in a list. */
  lemma ItemText(list: Doc, item: Doc, texts: seq<string>, values: seq<Value>, n: nat, value: seq<Value>)
    requires 0 < n <= |texts| && TextOf(list) == Joined(texts[..n - 1], ", ") && TextOf(item) == texts[n - 1]
    requires ValuesOf(list) == values && ValuesOf(item) == value
    ensures TextOf(Three(list, Separator(n - 1), item)) == Joined(texts[..n], ", ")
    ensures ValuesOf(Three(list, Separator(n - 1), item)) == values + value
  {
    JoinedStep(texts, n);
    NothingBefore(texts[n - 1], []);
    OnlyValues(values, []);
  }

  lemma SliceMore(list: seq<Value>, n: nat)
    requires 0 < n <= |list|
    ensures list[..n] == list[..n - 1] + [list[n - 1]]
  {
  }

  lemma AssignListStep(order: seq<string>, values: Values, n: nat, front: Doc, texts: seq<string>, list: seq<Value>)
    requires 0 < n <= |order| && AllKeys(order, values) && front == AssignList(order, values, n - 1)
    requires texts == Assignments(order) && list == InOrder(values, order)
    requires TextOf(front) == Joined(texts[..n - 1], ", ") && ValuesOf(front) == list[..n - 1]
    ensures TextOf(AssignList(order, values, n)) == Joined(texts[..n], ", ")
    ensures ValuesOf(AssignList(order, values, n)) == list[..n]
  {
    var column := order[n - 1];
    AssignText(column, values[column]);
    ItemText(front, AssignDoc(column, values[column]), texts, list[..n - 1], n, [list[n - 1]]);
    SliceMore(list, n);
  }

  lemma {:induction false} AssignListText(order: seq<string>, values: Values, n: nat)
    requires n <= |order| && AllKeys(order, values)
    ensures TextOf(AssignList(order, values, n)) == Joined(Assignments(order)[..n], ", ")
    ensures ValuesOf(AssignList(order, values, n)) == InOrder(values, order)[..n]
  {
    if n > 0 {
      AssignListText(order, values, n - 1);
      AssignListStep(order, values, n, AssignList(order, values, n - 1), Assignments(order), InOrder(values, order));
    }
  }

  lemma UpdateHeadText(table: string, values: Values, order: seq<string>)
    requires AllKeys(order, values)
    ensures TextOf(UpdateHead(table, values, order))
         == "UPDATE " + Escaped(table) + " SET " + Joined(Assignments(order), ", ")
    ensures ValuesOf(UpdateHead(table, values, order)) == InOrder(values, order)
  {
    AllAssignText(order, values);
    UpdateSetText(table);
    ThenParts(UpdateSet(table), AssignList(order, values, |order|));
    OnlyValues(InOrder(values, order), []);
  }

  lemma UpdateSetText(table: string)
    ensures TextOf(UpdateSet(table)) == "UPDATE " + Escaped(table) + " SET " && ValuesOf(UpdateSet(table)) == []
  {
    NameText(table);
    ThreeParts(Word("UPDATE "), Name(table), Word(" SET "));
  }

  lemma AllAssignText(order: seq<string>, values: Values)
    requires AllKeys(order, values)
    ensures TextOf(AssignList(order, values, |order|)) == Joined(Assignments(order), ", ")
    ensures ValuesOf(AssignList(order, values, |order|)) == InOrder(values, order)
  {
    AssignListText(order, values, |order|);
    assert Assignments(order)[..|order|] == Assignments(order);
    assert InOrder(values, order)[..|order|] == InOrder(values, order);
  }

  /** UPDATE: the assignments, and behind them every condition a call added, in call order; the values
      likewise. */
  lemma UpdateStatement(table: string, calls: seq<Call>, values: Values, order: seq<string>)
    requires AllKeys(order, values)
    ensures Append(EMPTY, UpdateDoc(Built(NewQuery(table), calls), values, order)) ==
              Out("UPDATE " + Escaped(TableOf(table, calls)) + " SET " + Joined(Assignments(order), ", ")
                  + WhereText(calls) + PageText(calls),
                  InOrder(values, order) + WhereValues(calls))
  {
    var q := Built(NewQuery(table), calls);
    ChainCollects(table, calls);
    Whole(UpdateDoc(q, values, order));
    UpdateHeadText(q.table, values, order);
    WhereDocText(q, calls);
    PageDocText(q, table, calls);
    OnlyValues(InOrder(values, order), WhereValues(calls));
  }

  function InsertText(table: string, columns: seq<string>): string {
    "INSERT INTO " + Escaped(table) + " (" + Joined(Names(columns), ", ")
  }

  lemma InsertHeadText(table: string, columns: seq<string>)
    ensures TextOf(InsertHead(table, columns)) == InsertText(table, columns) && ValuesOf(InsertHead(table, columns)) == []
  {
    var names := Names(columns);
    ColumnListText(columns, |columns|);
    assert names[..|names|] == names;
    WordsText();
    WordsValues();
    NameText(table);
    ThreeParts(INSERT_INTO, Name(table), Word(" ("));
    ThenParts(InsertInto(table), ColumnList(columns, |columns|));
  }

  lemma InsertDocText(q: Query, values: Values, order: seq<string>)
    requires AllKeys(order, values)
    ensures TextOf(InsertDoc(q, values, order)) == InsertText(q.table, order) + ") VALUES (" + Marks(|order|) + ")"
    ensures ValuesOf(InsertDoc(q, values, order)) == InOrder(values, order)
  {
    InsertOpenText(q.table, order);
    ClosedList(InsertOpen(q.table, order), InOrder(values, order));
  }

  lemma ClosedList(open: Doc, list: seq<Value>)
    requires ValuesOf(open) == []
    ensures TextOf(Three(open, ValueList(list, |list|), Word(")"))) == TextOf(open) + Marks(|list|) + ")"
    ensures ValuesOf(Three(open, ValueList(list, |list|), Word(")"))) == list
  {
    MarksText(list, |list|);
    assert list[..|list|] == list;
    ThreeParts(open, ValueList(list, |list|), Word(")"));
    OnlyValues(list, []);
  }

  lemma InsertOpenText(table: string, columns: seq<string>)
    ensures TextOf(InsertOpen(table, columns)) == InsertText(table, columns) + ") VALUES ("
    ensures ValuesOf(InsertOpen(table, columns)) == []
  {
    InsertHeadText(table, columns);
    WordsText();
    WordsValues();
    ThenParts(InsertHead(table, columns), VALUES_OPEN);
  }

  /** INSERT: each column once, a placeholder and the value for each, in one order. */
  lemma InsertStatement(table: string, calls: seq<Call>, values: Values, order: seq<string>)
    requires AllKeys(order, values)
    ensures Append(EMPTY, InsertDoc(Built(NewQuery(table), calls), values, order)) ==
              Out("INSERT INTO " + Escaped(TableOf(table, calls)) + " (" + Joined(Names(order), ", ")
                  + ") VALUES (" + Marks(|order|) + ")", InOrder(values, order))
  {
    var q := Built(NewQuery(table), calls);
    ChainCollects(table, calls);
    Whole(InsertDoc(q, values, order));
    InsertDocText(q, values, order);
  }

  lemma InsertIgnoreStatement(table: string, calls: seq<Call>, values: Values, order: seq<string>)
    requires AllKeys(order, values)
    ensures Append(EMPTY, InsertIgnoreDoc(Built(NewQuery(table), calls), values, order)) ==
              Out("INSERT INTO " + Escaped(TableOf(table, calls)) + " (" + Joined(Names(order), ", ")
                  + ") VALUES (" + Marks(|order|) + ")" + " ON DUPLICATE KEY UPDATE id=id", InOrder(values, order))
  {
    var q := Built(NewQuery(table), calls);
    ChainCollects(table, calls);
    Whole(InsertIgnoreDoc(q, values, order));
    WordsText();
    WordsValues();
    InsertDocText(q, values, order);
    ThenParts(InsertDoc(q, values, order), IGNORE_DUPLICATE);
    OnlyValues(InOrder(values, order), []);
  }

  /** One item a column to be updated. */
  function Updates(columns: seq<string>): (r: seq<string>)
    ensures |r| == |columns|
  {
    seq(|columns|, i requires 0 <= i < |columns| => Escaped(columns[i]) + " = VALUES(" + Escaped(columns[i]) + ")")
  }

  lemma {:induction false} UpsertListText(columns: seq<string>, n: nat)
    requires n <= |columns|
    ensures TextOf(UpsertList(columns, n)) == Joined(Updates(columns)[..n], ", ") && ValuesOf(UpsertList(columns, n)) == []
  {
    if n > 0 {
      UpsertListText(columns, n - 1);
      UpsertItemText(columns[n - 1]);
      JoinedStep(Updates(columns), n);
      NothingBefore(Updates(columns)[n - 1], []);
    }
  }

  lemma UpsertItemText(column: string)
    ensures TextOf(UpsertItem(column)) == Escaped(column) + " = VALUES(" + Escaped(column) + ")"
    ensures ValuesOf(UpsertItem(column)) == []
  {
  }

  lemma UpsertStatement(table: string, calls: seq<Call>, values: Values, order: seq<string>, updates: seq<string>)
    requires AllKeys(order, values)
    ensures Append(EMPTY, UpsertDoc(Built(NewQuery(table), calls), values, order, updates)) ==
              Out("INSERT INTO " + Escaped(TableOf(table, calls)) + " (" + Joined(Names(order), ", ")
                  + ") VALUES (" + Marks(|order|) + ")"
                  + (" ON DUPLICATE KEY UPDATE " + Joined(Updates(if updates == [] then order else updates), ", ")),
                  InOrder(values, order))
  {
    var q := Built(NewQuery(table), calls);
    var columns := if updates == [] then order else updates;
    ChainCollects(table, calls);
    Whole(UpsertDoc(q, values, order, updates));
    InsertDocText(q, values, order);
    UpsertTailText(columns);
    ThenParts(InsertDoc(q, values, order), UpsertTail(columns));
    OnlyValues(InOrder(values, order), []);
  }

  lemma UpsertTailText(columns: seq<string>)
    ensures TextOf(UpsertTail(columns)) == " ON DUPLICATE KEY UPDATE " + Joined(Updates(columns), ", ")
    ensures ValuesOf(UpsertTail(columns)) == []
  {
    UpsertListText(columns, |columns|);
    assert Updates(columns)[..|columns|] == Updates(columns);
    WordsText();
    WordsValues();
    ThenParts(ON_DUPLICATE, UpsertList(columns, |columns|));
  }

  /** `n` times the placeholders of a row. */
  function MarkRows(columns: nat, n: nat): seq<string> {
    seq(n, _ => "(" + Marks(columns) + ")")
  }

  lemma {:induction false} RowListText(rows: seq<Values>, columns: seq<string>, n: nat)
    requires n <= |rows|
    ensures TextOf(RowList(rows, columns, n)) == Joined(MarkRows(|columns|, n), ", ")
  {
    if n > 0 {
      RowListText(rows, columns, n - 1);
      ListedText(RowValues(rows[n - 1], columns));
      assert MarkRows(|columns|, n)[..n - 1] == MarkRows(|columns|, n - 1);
      assert MarkRows(|columns|, n)[..n] == MarkRows(|columns|, n);
      JoinedStep(MarkRows(|columns|, n), n);
      NothingBefore("(" + Marks(|columns|) + ")", []);
    }
  }

  /** A batch: the columns once, and the placeholders of every row; its values are stated by BatchEntry. */
  lemma BatchStatement(table: string, calls: seq<Call>, rows: seq<Values>, columns: seq<string>)
    ensures Append(EMPTY, BatchDoc(Built(NewQuery(table), calls), rows, columns)) ==
              Out(if rows == [] then ""
                  else "INSERT INTO " + Escaped(TableOf(table, calls)) + " (" + Joined(Names(columns), ", ")
                       + ") VALUES " + Joined(MarkRows(|columns|, |rows|), ", "),
                  Flat(rows, columns, |rows|))
  {
    var q := Built(NewQuery(table), calls);
    ChainCollects(table, calls);
    Whole(BatchDoc(q, rows, columns));
    BatchValues(q, rows, columns);
    if rows != [] {
      BatchText(q, rows, columns);
    }
  }

  lemma BatchText(q: Query, rows: seq<Values>, columns: seq<string>)
    requires rows != []
    ensures TextOf(BatchDoc(q, rows, columns))
         == InsertText(q.table, columns) + ") VALUES " + Joined(MarkRows(|columns|, |rows|), ", ")
  {
    InsertHeadText(q.table, columns);
    RowListText(rows, columns, |rows|);
    WordsText();
    ThenParts(InsertHead(q.table, columns), VALUES);
    ThenParts(BatchHead(q.table, columns), RowList(rows, columns, |rows|));
  }

  // ---------------------------------------------------------------- single calls

  /** A comparison adds its value to the others exactly if its operator is not a list operator; under one the
      text goes on with empty parentheses and the value is dropped. */
  lemma ComparisonBinds(calls: seq<Call>, column: string, op: string, value: Value, link: Plain)
    ensures WhereValues(calls + [Where(column, op, value, link)])
         == WhereValues(calls) + if op in {"in", "IN", "not in", "NOT IN"} then [] else [value]
  {
    var c := Where(column, op, value, link);
    assert (calls + [c])[..|calls|] == calls;
    var more := ConditionOf(c);
    assert (Conditions(calls) + more)[..|Conditions(calls)|] == Conditions(calls);
  }

  lemma QuotedLetter(s: string)
    requires forall i | 0 <= i < |s| :: s[i] != '`' && s[i] != '.' && s[i] != '('
    requires s != "" && s != "*"
    ensures Escaped(s) == "`" + s + "`"
  {
    NothingDoubled(s);
    assert '(' !in s && '.' !in s;
  }

  lemma {:induction false} NothingDoubled(s: string)
    requires forall i | 0 <= i < |s| :: s[i] != '`'
    ensures Doubled(s) == s
  {
    if s != "" {
      NothingDoubled(s[..|s| - 1]);
    }
  }

  /** One assignment under one condition, in full. */
  lemma UpdateByKey(table: string, column: string, value: Value, key: string, id: Value)
    ensures Append(EMPTY, UpdateDoc(Built(NewQuery(table), [Where(key, "=", id, "AND")]), map[column := value], [column]))
         == Out("UPDATE " + Escaped(table) + " SET " + (Escaped(column) + " = ?") + (" WHERE " + (Escaped(key) + " = ?")) + "",
                [value, id])
  {
    var calls, values, order := [Where(key, "=", id, "AND")], map[column := value], [column];
    UpdateStatement(table, calls, values, order);
    OneCall(key, id, calls, table);
    assert Assignments(order) == [Escaped(column) + " = ?"];
    assert InOrder(values, order) == [value];
  }

  lemma OneCall(key: string, id: Value, calls: seq<Call>, table: string)
    requires calls == [Where(key, "=", id, "AND")]
    ensures WhereText(calls) == " WHERE " + (Escaped(key) + " = ?") && WhereValues(calls) == [id]
    ensures PageText(calls) == "" && TableOf(table, calls) == table
  {
    var c := Condition("AND", Escaped(key) + " = ?", [id]);
    Equality(Escaped(key));
    OneCondition(calls, c);
    OneValue(c);
    NoSettings(calls, table);
  }

  lemma OneCondition(calls: seq<Call>, c: Condition)
    requires |calls| == 1 && ConditionOf(calls[0]) == [c]
    ensures Conditions(calls) == [c]
  {
    assert calls[..0] == [];
    assert Conditions(calls) == Conditions([]) + [c];
  }

  lemma OneValue(c: Condition)
    ensures ChainValues([c]) == c.values && Chain([c]) == c.text
  {
    assert [c][..0] == [];
    NoMoreValues(c.values);
  }

  lemma NoSettings(calls: seq<Call>, table: string)
    requires |calls| == 1 && calls[0].Where?
    ensures PageText(calls) == "" && TableOf(table, calls) == table
  {
    assert calls[..0] == [];
    assert LimitOf(calls) == 0 && OffsetOf(calls) == 0;
  }

  lemma Equality(e: string)
    ensures e + " " + Sign("=") + " ?" == e + " = ?"
  {
  }

  lemma Backticks()
    ensures Escaped("t") == "`t`" && Escaped("name") == "`name`" && Escaped("id") == "`id`"
  {
    QuotedLetter("t");
    QuotedLetter("name");
    QuotedLetter("id");
  }

  /** For instance. */
  lemma UpdateOfOneRow()
    ensures Append(EMPTY, UpdateDoc(Built(NewQuery("t"), [Where("id", "=", Int(7), "AND")]),
                                    map["name" := Value.Text("x")], ["name"]))
         == Out("UPDATE `t` SET `name` = ? WHERE `id` = ?", [Value.Text("x"), Int(7)])
  {
    UpdateByKey("t", "name", Value.Text("x"), "id", Int(7));
    Backticks();
    OneText();
  }

  lemma OneText()
    ensures "UPDATE " + "`t`" + " SET " + ("`name`" + " = ?") + (" WHERE " + ("`id`" + " = ?")) + ""
         == "UPDATE `t` SET `name` = ? WHERE `id` = ?"
  {
  }
}
