/** rowToString and rowFromString of zero/db/db_repository.h: how a row is kept in the cache.
    A std::string is a `string` whose characters are its bytes. */
module RowCodec {
  import opened Bytes
  import opened Options
  import Sequences

  type Row = map<string, string>

  // ---------------------------------------------------------------- decimal numbers

  function Digit(d: nat): (c: char)
    requires d < 10
    ensures IsDigit(c) && c as int - '0' as int == d
  {
    (d + '0' as int) as char
  }

  predicate IsDigit(c: char) {
    '0' <= c <= '9'
  }

  /** What `<<` prints for a size. */
  function Decimal(n: nat): (s: string)
    ensures |s| > 0
  {
    if n < 10 then [Digit(n)] else Decimal(n / 10) + [Digit(n % 10)]
  }

  function DigitPrefix(s: string): (k: nat)
    ensures k <= |s| && forall i | 0 <= i < k :: IsDigit(s[i])
  {
    if s != "" && IsDigit(s[0]) then 1 + DigitPrefix(s[1..]) else 0
  }

  function Value(s: string): (n: nat)
    requires forall i | 0 <= i < |s| :: IsDigit(s[i])
  {
    if s == "" then 0
    else
      var last := s[|s| - 1];
      assert IsDigit(last);
      10 * Value(s[..|s| - 1]) + (last as int - '0' as int)
  }

  predicate IsSpace(c: char) {
    c == ' ' || 9 <= c as int <= 13
  }

  function SkipSpaces(s: string): string {
    if s != "" && IsSpace(s[0]) then SkipSpaces(s[1..]) else s
  }

  /** std::stoull: leading spaces, an optional sign, then the longest run of digits. It throws (None) when
      there is no digit or the number does not fit; a minus sign negates modulo 2^64. */
  function ParseSize(s: string): (r: Option<nat>)
    ensures r.Some? ==> r.value < TWO_64
  {
    var t := SkipSpaces(s);
    var signed := t != "" && (t[0] == '-' || t[0] == '+');
    var digits := if signed then t[1..] else t;
    var run := digits[..DigitPrefix(digits)];
    if run == "" || Value(run) >= TWO_64 then None
    else Some(if signed && t[0] == '-' then (TWO_64 - Value(run)) % TWO_64 else Value(run))
  }

  lemma {:induction false} AllDigits(s: string)
    requires forall i | 0 <= i < |s| :: IsDigit(s[i])
    ensures DigitPrefix(s) == |s|
  {
    if s != "" {
      AllDigits(s[1..]);
    }
  }

  lemma {:induction false} DecimalValue(n: nat)
    ensures forall i | 0 <= i < |Decimal(n)| :: IsDigit(Decimal(n)[i])
    ensures Value(Decimal(n)) == n
  {
    if n >= 10 {
      DecimalValue(n / 10);
      var s := Decimal(n);
      assert s[..|s| - 1] == Decimal(n / 10);
    }
  }

  /** Printing a size and parsing it back. */
  lemma PrintParse(n: nat)
    requires n < TWO_64
    ensures ParseSize(Decimal(n)) == Some(n)
  {
    var s := Decimal(n);
    DecimalValue(n);
    AllDigits(s);
    assert IsDigit(s[0]);
    assert s[..|s|] == s;
  }

  // ---------------------------------------------------------------- encoding

  predicate AllIn(order: seq<string>, row: Row) {
    forall i | 0 <= i < |order| :: order[i] in row
  }

  /** `order` is the order in which the map is walked; every column once. */
  ghost predicate Enumerates(order: seq<string>, row: Row) {
    && AllIn(order, row)
    && (forall i, j | 0 <= i < j < |order| :: order[i] != order[j])
    && (forall column | column in row :: column in order)
  }

  function EntryText(column: string, value: string): string {
    column + (['='] + (Decimal(|value|) + ([':'] + value)))
  }

  function Rest(separator: bool, text: string): string {
    if separator then ['\n'] + text else ""
  }

  /** The columns of `order` from the `i`-th on. */
  function RowText(row: Row, order: seq<string>, i: nat): string
    requires AllIn(order, row)
    decreases |order| - i
  {
    if i >= |order| then ""
    else
      EntryText(order[i], row[order[i]]) + Rest(i + 1 < |order|, RowText(row, order, i + 1))
  }

  method RowToString(row: Row, order: seq<string>) returns (out: string)
    requires AllIn(order, row)
    ensures out == RowText(row, order, 0)
  {
    out := "";
    var first := true;
    for i := 0 to |order|
      invariant first <==> i == 0
      invariant out + Ahead(row, order, i) == RowText(row, order, 0)
    {
      ghost var before := out;
      var separator := if first then "" else ['\n'];
      out := out + separator;
      first := false;
      var value := row[order[i]];
      out := out + EntryText(order[i], value);
      Regroup(before, separator, EntryText(order[i], value), Ahead(row, order, i + 1));
    }
  }

  /** What is still to be written before column `i`: its separator and all the rest. */
  function Ahead(row: Row, order: seq<string>, i: nat): string
    requires AllIn(order, row)
  {
    if i == 0 then RowText(row, order, 0)
    else if i < |order| then ['\n'] + RowText(row, order, i)
    else ""
  }

  lemma Regroup(a: string, b: string, c: string, d: string)
    ensures a + b + c + d == a + (b + (c + d))
  {
  }

  // ---------------------------------------------------------------- decoding

  /** std::string::find. */
  function Find(s: string, c: char, from: nat): (r: Option<nat>)
    ensures r.Some? ==> from <= r.value < |s| && s[r.value] == c
    ensures r.Some? ==> forall j | from <= j < r.value :: s[j] != c
    ensures r.None? ==> forall j | from <= j < |s| :: s[j] != c
    decreases |s| - from
  {
    if from >= |s| then None else if s[from] == c then Some(from) else Find(s, c, from + 1)
  }

  function Min(a: nat, b: nat): nat {
    if a < b then a else b
  }

  /** One turn of the cursor loop. `Wrapped` is a length so large that the cursor overflows 64 bits and
      moves backwards. */
  datatype Turn = Column(name: string, value: string, next: nat) | Wrapped(name: string, value: string) | Break

  /** The part before a value: column name and length, with the place where the value begins. */
  datatype Mark = Mark(name: string, size: nat, from: nat)

  function MarkOf(s: string, start: nat): (m: Option<Mark>)
    requires start <= |s|
    ensures m.Some? ==> start < m.value.from <= |s| && '=' !in m.value.name && m.value.size < TWO_64
  {
    var eq := Find(s, '=', start);
    if eq.None? then None
    else
      var colon := Find(s, ':', eq.value + 1);
      if colon.None? then None
      else
        var size := ParseSize(s[eq.value + 1..colon.value]);
        if size.None? then None
        else Some(Mark(s[start..eq.value], size.value, colon.value + 1))
  }

  function SkipNewline(s: string, at: nat): (r: nat)
    ensures at <= r && (at <= |s| ==> r <= |s|)
  {
    if at < |s| && s[at] == '\n' then at + 1 else at
  }

  function ValueAt(s: string, m: Mark): Turn
    requires m.from <= |s|
  {
    var value := s[m.from..Min(m.from + m.size, |s|)];
    if m.from + m.size >= TWO_64 then Wrapped(m.name, value)
    else Column(m.name, value, SkipNewline(s, m.from + m.size))
  }

  function TurnOf(s: string, start: nat): (t: Turn)
    requires start <= |s|
    ensures t.Column? ==> start < t.next
    ensures !t.Break? ==> '=' !in t.name
  {
    var m := MarkOf(s, start);
    if m.None? then Break else ValueAt(s, m.value)
  }

  /** What the loop makes of `s` from `start` on; `wrapped` tells that it would go on from a cursor that
      moved backwards. */
  datatype Reading = Reading(row: Row, wrapped: bool)

  function ReadFrom(s: string, start: nat, row: Row): Reading
    decreases |s| - start
  {
    if start >= |s| then Reading(row, false)
    else
      match TurnOf(s, start)
      case Break => Reading(row, false)
      case Wrapped(name, value) => Reading(row[name := value], true)
      case Column(name, value, next) => ReadFrom(s, next, row[name := value])
  }

  method ReadMark(s: string, start: nat) returns (m: Option<Mark>)
    requires start <= |s|
    ensures m == MarkOf(s, start)
  {
    var eq := Find(s, '=', start);
    if eq.None? {
      return None;
    }
    var colon := Find(s, ':', eq.value + 1);
    if colon.None? {
      return None;
    }
    var size := ParseSize(s[eq.value + 1..colon.value]);
    if size.None? {
      return None;
    }
    m := Some(Mark(s[start..eq.value], size.value, colon.value + 1));
  }

  method ReadColumn(s: string, start: nat) returns (t: Turn)
    requires start <= |s|
    ensures t == TurnOf(s, start)
  {
    var m := ReadMark(s, start);
    if m.None? {
      return Break;
    }
    var name, size, from := m.value.name, m.value.size, m.value.from;
    var value := s[from..Min(from + size, |s|)];
    if from + size >= TWO_64 {
      return Wrapped(name, value);
    }
    var next := from + size;
    if next < |s| && s[next] == '\n' {
      next := next + 1;
    }
    t := Column(name, value, next);
  }

  method RowFromString(s: string) returns (r: Reading)
    ensures r == ReadFrom(s, 0, map[])
  {
    var row: Row := map[];
    var start := 0;
    while start < |s|
      invariant ReadFrom(s, 0, map[]) == ReadFrom(s, start, row)
      decreases |s| - start
    {
      var t := ReadColumn(s, start);
      if t.Break? {
        break;
      }
      row := row[t.name := t.value];
      if t.Wrapped? {
        return Reading(row, true);
      }
      start := t.next;
    }
    r := Reading(row, false);
  }

  // ---------------------------------------------------------------- round trip

  lemma {:induction false} FindAt(s: string, c: char, from: nat, k: nat)
    requires from <= k < |s| && s[k] == c && forall j | from <= j < k :: s[j] != c
    ensures Find(s, c, from) == Some(k)
  {
  }

  lemma Standing(s: string, start: nat, a: string, b: string)
    requires start <= |s| && s[start..] == a + b
    ensures start + |a| <= |s| && s[start..start + |a|] == a && s[start + |a|..] == b
  {
    assert s[start..start + |a|] == s[start..][..|a|] == a;
    assert s[start + |a|..] == s[start..][|a|..] == b;
  }

  lemma Head(s: string, start: nat, c: char, b: string)
    requires start <= |s| && s[start..] == [c] + b
    ensures start < |s| && s[start] == c && s[start + 1..] == b
  {
    assert s[start..][0] == c;
    Standing(s, start, [c], b);
  }

  lemma FindAfter(s: string, start: nat, a: string, c: char, b: string)
    requires start <= |s| && s[start..] == a + ([c] + b) && c !in a
    ensures start + |a| < |s| && Find(s, c, start) == Some(start + |a|)
    ensures s[start..start + |a|] == a && s[start + |a| + 1..] == b
  {
    Standing(s, start, a, [c] + b);
    Head(s, start + |a|, c, b);
    forall j | start <= j < start + |a|
      ensures s[j] != c
    {
      assert s[j] == s[start..start + |a|][j - start] == a[j - start];
    }
    FindAt(s, c, start, start + |a|);
  }

  lemma EntryParts(column: string, value: string, rest: string)
    ensures EntryText(column, value) + rest == column + (['='] + (Decimal(|value|) + ([':'] + (value + rest))))
  {
    var size := Decimal(|value|);
    Sequences.Assoc(column, ['='] + (size + ([':'] + value)), rest);
    Sequences.Assoc(['='], size + ([':'] + value), rest);
    Sequences.Assoc(size, [':'] + value, rest);
    Sequences.Assoc([':'], value, rest);
  }

  lemma NoColonInSize(n: nat)
    ensures ':' !in Decimal(n)
  {
    DecimalValue(n);
  }

  lemma EntryLength(column: string, value: string)
    ensures |EntryText(column, value)| == |column| + |Decimal(|value|)| + |value| + 2
  {
  }

  lemma MarkAt(s: string, start: nat, column: string, size: nat, sized: string, tail: string)
    requires size < TWO_64 && start <= |s| && '=' !in column
    requires s[start..] == column + (['='] + sized) && sized == Decimal(size) + ([':'] + tail)
    ensures var from := start + |column| + |Decimal(size)| + 2;
            MarkOf(s, start) == Some(Mark(column, size, from)) && from <= |s| && s[from..] == tail
  {
    FindAfter(s, start, column, '=', sized);
    MarkFrom(s, start, start + |column|, column, size, tail);
  }

  lemma MarkFrom(s: string, start: nat, eq: nat, name: string, size: nat, tail: string)
    requires size < TWO_64 && start <= eq < |s| && Find(s, '=', start) == Some(eq) && s[start..eq] == name
    requires s[eq + 1..] == Decimal(size) + ([':'] + tail)
    ensures var from := eq + |Decimal(size)| + 2;
            MarkOf(s, start) == Some(Mark(name, size, from)) && from <= |s| && s[from..] == tail
  {
    SizeAt(s, eq + 1, size, tail);
    MarkFound(s, start, eq, eq + 1 + |Decimal(size)|, name, size);
  }

  lemma SizeAt(s: string, from: nat, size: nat, tail: string)
    requires size < TWO_64 && from <= |s| && s[from..] == Decimal(size) + ([':'] + tail)
    ensures var colon := from + |Decimal(size)|;
            && Find(s, ':', from) == Some(colon) && ParseSize(s[from..colon]) == Some(size)
            && colon + 1 <= |s| && s[colon + 1..] == tail
  {
    NoColonInSize(size);
    FindAfter(s, from, Decimal(size), ':', tail);
    PrintParse(size);
  }

  lemma MarkRoundTrip(s: string, start: nat, column: string, value: string, rest: string)
    requires |s| < TWO_64 && start <= |s| && '=' !in column
    requires s[start..] == EntryText(column, value) + rest
    ensures var m := Mark(column, |value|, start + |EntryText(column, value)| - |value|);
            MarkOf(s, start) == Some(m) && m.from <= |s| && s[m.from..] == value + rest
  {
    EntryParts(column, value, rest);
    EntryLength(column, value);
    MarkAt(s, start, column, |value|, Decimal(|value|) + ([':'] + (value + rest)), value + rest);
  }

  lemma MarkFound(s: string, start: nat, eq: nat, colon: nat, name: string, size: nat)
    requires Find(s, '=', start) == Some(eq) && Find(s, ':', eq + 1) == Some(colon)
    requires s[start..eq] == name && ParseSize(s[eq + 1..colon]) == Some(size)
    ensures MarkOf(s, start) == Some(Mark(name, size, colon + 1))
  {
  }

  lemma ValueRoundTrip(s: string, m: Mark, value: string, more: bool, text: string)
    requires |s| < TWO_64 && m.from <= |s| && s[m.from..] == value + Rest(more, text) && m.size == |value|
    ensures var next := m.from + |value| + (if more then 1 else 0);
            ValueAt(s, m) == Column(m.name, value, next) && next <= |s|
            && s[next..] == if more then text else ""
  {
    Standing(s, m.from, value, Rest(more, text));
    if more {
      Head(s, m.from + |value|, '\n', text);
    }
  }

  /** One encoded column is one turn of the cursor, whatever the value contains. */
  lemma EntryRoundTrip(s: string, start: nat, column: string, value: string, more: bool, text: string)
    requires |s| < TWO_64 && start <= |s| && '=' !in column
    requires s[start..] == EntryText(column, value) + Rest(more, text)
    ensures var next := start + |EntryText(column, value)| + (if more then 1 else 0);
            TurnOf(s, start) == Column(column, value, next) && start < next <= |s|
            && s[next..] == if more then text else ""
  {
    MarkRoundTrip(s, start, column, value, Rest(more, text));
    ValueRoundTrip(s, MarkOf(s, start).value, value, more, text);
  }

  predicate PlainNames(row: Row) {
    forall column <- row :: '=' !in column
  }

  function Inserted(initial: Row, row: Row, order: seq<string>, i: nat): Row
    requires AllIn(order, row)
    decreases |order| - i
  {
    if i >= |order| then initial else Inserted(initial[order[i] := row[order[i]]], row, order, i + 1)
  }

  lemma OneMore(s: string, start: nat, initial: Row, column: string, value: string, more: bool, text: string,
                next: nat, after: Row)
    requires |s| < TWO_64 && start <= |s| && '=' !in column && after == initial[column := value]
    requires s[start..] == EntryText(column, value) + Rest(more, text)
    requires next == start + |EntryText(column, value)| + (if more then 1 else 0)
    ensures next <= |s| && s[next..] == if more then text else ""
    ensures ReadFrom(s, start, initial) == ReadFrom(s, next, after)
  {
    EntryRoundTrip(s, start, column, value, more, text);
  }

  lemma {:induction false} ColumnsRead(s: string, start: nat, initial: Row, row: Row, order: seq<string>, i: nat)
    requires AllIn(order, row) && PlainNames(row) && |s| < TWO_64
    requires start <= |s| && s[start..] == RowText(row, order, i)
    ensures ReadFrom(s, start, initial) == Reading(Inserted(initial, row, order, i), false)
    decreases |order| - i
  {
    if i < |order| {
      var column, more := order[i], i + 1 < |order|;
      var next := start + |EntryText(column, row[column])| + (if more then 1 else 0);
      var after := initial[column := row[column]];
      OneMore(s, start, initial, column, row[column], more, RowText(row, order, i + 1), next, after);
      ColumnsRead(s, next, after, row, order, i + 1);
    } else {
      assert start == |s|;
    }
  }

  lemma {:induction false} InsertedAgrees(initial: Row, row: Row, order: seq<string>, i: nat)
    requires AllIn(order, row)
    requires forall column <- initial :: column in row && initial[column] == row[column]
    ensures var r := Inserted(initial, row, order, i);
            && (forall column <- r :: column in row && r[column] == row[column])
            && (forall column <- initial :: column in r)
            && (forall j | i <= j < |order| :: order[j] in r)
    decreases |order| - i
  {
    if i < |order| {
      InsertedAgrees(initial[order[i] := row[order[i]]], row, order, i + 1);
    }
  }

  lemma InsertedIsAll(row: Row, order: seq<string>)
    requires Enumerates(order, row)
    ensures Inserted(map[], row, order, 0) == row
  {
    InsertedAgrees(map[], row, order, 0);
  }

  lemma {:induction false} ReadNamesArePlain(s: string, start: nat, initial: Row)
    requires PlainNames(initial)
    ensures PlainNames(ReadFrom(s, start, initial).row)
    decreases |s| - start
  {
    if start < |s| {
      var t := TurnOf(s, start);
      if t.Column? {
        ReadNamesArePlain(s, t.next, initial[t.name := t.value]);
      }
    }
  }

  /** A row read back from its text is the row, whatever its values contain, if and only if no column name
      contains '='. The cursor then never wraps. (A text of 2^64 characters does not fit a std::string.) */
  lemma RowRoundTrip(row: Row, order: seq<string>)
    requires Enumerates(order, row) && |RowText(row, order, 0)| < TWO_64
    ensures ReadFrom(RowText(row, order, 0), 0, map[]) == Reading(row, false) <==> PlainNames(row)
  {
    var s := RowText(row, order, 0);
    ReadNamesArePlain(s, 0, map[]);
    if PlainNames(row) {
      assert s[0..] == s;
      ColumnsRead(s, 0, map[], row, order, 0);
      InsertedIsAll(row, order);
    }
  }
}
