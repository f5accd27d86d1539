/** zero/db/db_model.h: a model as the text of its bound columns, and how rows become models. */
module Models {
  import opened Bytes
  import opened RowCodec

  /** std::to_string of a signed number. */
  function PrintInt(n: int): (s: string)
    ensures |s| > 0
  {
    if n < 0 then ['-'] + Decimal(-n) else Decimal(n)
  }

  /** parseInt64: std::stoll, with 0 for every exception. */
  function ParseInt64(s: string): (n: int)
    ensures -TWO_63 <= n < TWO_63
  {
    var t := SkipSpaces(s);
    var signed := t != "" && (t[0] == '-' || t[0] == '+');
    var digits := if signed then t[1..] else t;
    var run := digits[..DigitPrefix(digits)];
    var v: int := Value(run);
    var n := if signed && t[0] == '-' then -v else v;
    if -TWO_63 <= n < TWO_63 then n else 0
  }

  /** parseUInt64. */
  function ParseUInt64(s: string): nat {
    var r := ParseSize(s);
    if r.Some? then r.value else 0
  }

  lemma RunOfDecimal(n: nat)
    ensures var s := Decimal(n); DigitPrefix(s) == |s| && s[..|s|] == s && Value(s) == n && IsDigit(s[0])
  {
    DecimalValue(n);
    AllDigits(Decimal(n));
  }

  lemma PrintParseInt(n: int)
    requires -TWO_63 <= n < TWO_63
    ensures ParseInt64(PrintInt(n)) == n
  {
    if n >= 0 {
      RunOfDecimal(n);
    } else {
      RunOfDecimal(-n);
      var s := PrintInt(n);
      assert s[0] == '-' && s[1..] == Decimal(-n);
    }
  }

  /** How a bound column is kept in the model (the field macros). */
  datatype Kind = Text | Integer | Unsigned | Flag

  /** A field's setter followed by its getter. */
  function Kept(kind: Kind, value: string): string {
    match kind
    case Text => value
    case Integer => PrintInt(ParseInt64(value))
    case Unsigned => Decimal(ParseUInt64(value))
    case Flag => if value in {"1", "true", "TRUE", "True"} then "1" else "0"
  }

  lemma KeptTwice(kind: Kind, value: string)
    ensures Kept(kind, Kept(kind, value)) == Kept(kind, value)
  {
    match kind
    case Integer => PrintParseInt(ParseInt64(value));
    case Unsigned => PrintParse(ParseUInt64(value));
    case Text =>
    case Flag =>
  }

  datatype Field = Field(kind: Kind, initial: string)

  datatype Schema = Schema(table: string, pk: string, fields: map<string, Field>, auto: bool, soft: bool)

  /** A model is what toRow gives: every bound column with the text of its member. */
  type Model = Row

  predicate IsSchema(c: Schema) {
    && c.pk in c.fields
    && (c.auto ==> !c.fields[c.pk].kind.Flag?)
    && forall column <- c.fields ::
         '=' !in column && Kept(c.fields[column].kind, c.fields[column].initial) == c.fields[column].initial
  }

  predicate IsModel(c: Schema, m: Model) {
    && m.Keys == c.fields.Keys
    && forall column <- m :: Kept(c.fields[column].kind, m[column]) == m[column]
  }

  /** fromRow on a fresh model: a column the row does not have keeps its initial value. */
  function FromRow(c: Schema, row: Row): Model {
    map column <- c.fields ::
      if column in row then Kept(c.fields[column].kind, row[column]) else c.fields[column].initial
  }

  /** Loading always gives a model, and loading what a model was saved as gives the model. */
  lemma SaveLoad(c: Schema, m: Model, row: Row)
    requires IsSchema(c) && IsModel(c, m)
    ensures IsModel(c, FromRow(c, row)) && FromRow(c, m) == m
  {
    forall column <- c.fields
      ensures Kept(c.fields[column].kind, FromRow(c, row)[column]) == FromRow(c, row)[column]
    {
      if column in row {
        KeptTwice(c.fields[column].kind, row[column]);
      }
    }
  }

  /** An id that the database generated survives being set in the model. */
  lemma GeneratedId(kind: Kind, n: nat)
    requires !kind.Flag? && n < TWO_63
    ensures Kept(kind, Decimal(n)) == Decimal(n)
  {
    PrintParseInt(n);
    PrintParse(n);
    assert PrintInt(n) == Decimal(n);
  }
}
