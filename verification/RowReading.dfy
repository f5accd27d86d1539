/** What the readers of zero/db/db_repository.h and zero/db/db_model.h make of any text: numbers with blanks,
    signs and tails, and columns that are complete, cut short or not there. */
module RowReading {
  import opened Bytes
  import opened Models
  import opened Options
  import opened RowCodec

  // ---------------------------------------------------------------- numbers

  predicate Spaces(s: string) {
    forall i | 0 <= i < |s| :: IsSpace(s[i])
  }

  predicate Digits(s: string) {
    forall i | 0 <= i < |s| :: IsDigit(s[i])
  }

  /** `s` is blanks, a sign or none, `digits`, and something that does not go on with a digit. */
  predicate Numeral(s: string, blanks: string, sign: string, digits: string, rest: string) {
    && s == blanks + (sign + (digits + rest)) && Spaces(blanks) && Digits(digits) && digits != ""
    && (sign == "" || sign == "-" || sign == "+") && (rest == "" || !IsDigit(rest[0]))
  }

  lemma {:induction false} SpacesSkipped(blanks: string, rest: string)
    requires Spaces(blanks) && (rest == "" || !IsSpace(rest[0]))
    ensures SkipSpaces(blanks + rest) == rest
  {
    if blanks == "" {
      assert blanks + rest == rest;
    } else {
      assert (blanks + rest)[1..] == blanks[1..] + rest;
      SpacesSkipped(blanks[1..], rest);
    }
  }

  lemma {:induction false} PrefixOfDigits(digits: string, rest: string)
    requires Digits(digits) && (rest == "" || !IsDigit(rest[0]))
    ensures DigitPrefix(digits + rest) == |digits| && (digits + rest)[..|digits|] == digits
  {
    if digits == "" {
      assert digits + rest == rest;
    } else {
      assert (digits + rest)[1..] == digits[1..] + rest;
      PrefixOfDigits(digits[1..], rest);
    }
  }

  /** What the number readers see of such a text. */
  lemma NumeralSeen(s: string, blanks: string, sign: string, digits: string, rest: string)
    requires Numeral(s, blanks, sign, digits, rest)
    ensures var t := SkipSpaces(s);
            var signed := t != "" && (t[0] == '-' || t[0] == '+');
            var tail := if signed then t[1..] else t;
            && (signed <==> sign != "") && (signed ==> t[0] == sign[0])
            && tail[..DigitPrefix(tail)] == digits
  {
    var t := sign + (digits + rest);
    assert t[0] == if sign == "" then digits[0] else sign[0];
    assert IsDigit(digits[0]);
    SpacesSkipped(blanks, t);
    PrefixOfDigits(digits, rest);
    if sign == "" {
      assert t == digits + rest;
    } else {
      assert t[1..] == digits + rest;
    }
  }

  /** stoull on such a text: the number if it has 64 bits, counted down from 2^64 behind a minus sign. */
  lemma ParseOnText(s: string, blanks: string, sign: string, digits: string, rest: string)
    requires Numeral(s, blanks, sign, digits, rest)
    ensures ParseSize(s) == if Value(digits) >= TWO_64 then None
                            else if sign == "-" then Some((TWO_64 - Value(digits)) % TWO_64) else Some(Value(digits))
  {
    NumeralSeen(s, blanks, sign, digits, rest);
  }

  lemma {:induction false} NoDigits(s: string)
    requires forall i | 0 <= i < |s| :: !IsDigit(s[i])
    ensures forall i | 0 <= i < |SkipSpaces(s)| :: !IsDigit(SkipSpaces(s)[i])
  {
    if s != "" {
      NoDigits(s[1..]);
    }
  }

  /** And on a text without digits it throws. */
  lemma NothingToParse(s: string)
    requires forall i | 0 <= i < |s| :: !IsDigit(s[i])
    ensures ParseSize(s) == None
  {
    NoDigits(s);
  }

  // ---------------------------------------------------------------- columns

  /** A column with a value of `n` characters, of which `rest` may have fewer; one newline behind them is
      passed over. */
  function ColumnWith(name: string, n: nat, from: nat, rest: string): Turn {
    var value := if n <= |rest| then rest[..n] else rest;
    if from + n >= TWO_64 then Wrapped(name, value)
    else Column(name, value, if n < |rest| && rest[n] == '\n' then from + n + 1 else from + n)
  }

  /** A column of the text: its name up to the first '=', its size up to the first ':' behind that, and as
      many characters as the size says, or as there are. */
  lemma ColumnOnText(s: string, start: nat, name: string, size: string, rest: string)
    requires start <= |s| && s[start..] == name + (['='] + (size + ([':'] + rest)))
    requires '=' !in name && ':' !in size
    ensures TurnOf(s, start) == match ParseSize(size)
                                case None => Break
                                case Some(n) => ColumnWith(name, n, start + |name| + |size| + 2, rest)
  {
    ColumnMark(s, start, name, size, rest);
    if ParseSize(size).Some? {
      ValueOnText(s, Mark(name, ParseSize(size).value, start + |name| + |size| + 2), rest);
    }
  }

  lemma ValueOnText(s: string, m: Mark, rest: string)
    requires m.from <= |s| && s[m.from..] == rest
    ensures ValueAt(s, m) == ColumnWith(m.name, m.size, m.from, rest)
  {
    var n := m.size;
    assert s[m.from..Min(m.from + n, |s|)] == if n <= |rest| then rest[..n] else rest;
    assert n < |rest| ==> s[m.from + n] == rest[n];
  }

  function MarkWith(name: string, size: string, from: nat): Option<Mark> {
    match ParseSize(size)
    case None => None
    case Some(n) => Some(Mark(name, n, from))
  }

  lemma ColumnMark(s: string, start: nat, name: string, size: string, rest: string)
    requires start <= |s| && s[start..] == name + (['='] + (size + ([':'] + rest)))
    requires '=' !in name && ':' !in size
    ensures var from := start + |name| + |size| + 2;
            from <= |s| && s[from..] == rest && MarkOf(s, start) == MarkWith(name, size, from)
  {
    var tail := size + ([':'] + rest);
    UpTo(s, start, name, '=', tail);
    SecondMark(s, start, start + |name|, name, size, rest, tail);
  }

  lemma SecondMark(s: string, start: nat, eq: nat, name: string, size: string, rest: string, tail: string)
    requires start <= eq < |s| && Find(s, '=', start) == Some(eq) && s[start..eq] == name
    requires tail == size + ([':'] + rest) && s[eq + 1..] == tail && ':' !in size
    ensures var from := eq + |size| + 2;
            from <= |s| && s[from..] == rest && MarkOf(s, start) == MarkWith(name, size, from)
  {
    UpTo(s, eq + 1, size, ':', rest);
    MarkSeen(s, start, eq, eq + 1 + |size|, name, size);
  }

  lemma MarkSeen(s: string, start: nat, eq: nat, colon: nat, name: string, size: string)
    requires start <= eq < colon < |s| && Find(s, '=', start) == Some(eq) && Find(s, ':', eq + 1) == Some(colon)
    requires s[start..eq] == name && s[eq + 1..colon] == size
    ensures MarkOf(s, start) == MarkWith(name, size, colon + 1)
  {
  }

  /** What stands before the first `c`, and behind it. */
  lemma UpTo(s: string, start: nat, front: string, c: char, rest: string)
    requires start <= |s| && s[start..] == front + ([c] + rest) && c !in front
    ensures var at := start + |front|;
            at < |s| && Find(s, c, start) == Some(at) && s[start..at] == front && s[at + 1..] == rest
  {
    var t := s[start..];
    var at := start + |front|;
    forall j | start <= j < at
      ensures s[j] != c
    {
      assert s[j] == t[j - start] == front[j - start];
    }
    assert s[at] == t[|front|] == c;
    FirstAt(s, c, start, at);
    assert s[start..at] == t[..|front|] == front;
    assert s[at + 1..] == t[|front| + 1..] == rest;
  }

  lemma FirstAt(s: string, c: char, from: nat, at: nat)
    requires from <= at < |s| && s[at] == c && forall j | from <= j < at :: s[j] != c
    ensures Find(s, c, from) == Some(at)
  {
  }

  /** Without an '=', or a ':' behind it, the reading ends. */
  lemma NoColumnOnText(s: string, start: nat)
    requires start <= |s|
    requires forall i, j | start <= i < j < |s| :: !(s[i] == '=' && s[j] == ':')
    ensures TurnOf(s, start) == Break
  {
  }

  // ---------------------------------------------------------------- fields of a model

  /** parseInt64 on blanks, a sign or none, digits and something else: the number, or 0 when it does not fit. */
  lemma IntOnText(s: string, blanks: string, sign: string, digits: string, rest: string)
    requires Numeral(s, blanks, sign, digits, rest)
    ensures var v: int := Value(digits);
            var n := if sign == "-" then -v else v;
            ParseInt64(s) == if -TWO_63 <= n < TWO_63 then n else 0
  {
    NumeralSeen(s, blanks, sign, digits, rest);
  }

  /** And 0 on a text without digits. */
  lemma IntOfNothing(s: string)
    requires forall i | 0 <= i < |s| :: !IsDigit(s[i])
    ensures ParseInt64(s) == 0 && ParseUInt64(s) == 0
  {
    NoDigits(s);
    NothingToParse(s);
  }

  /** A flag is set by exactly four texts. */
  lemma FlagOnText(value: string)
    ensures Kept(Flag, value) == "1" <==> value == "1" || value == "true" || value == "TRUE" || value == "True"
    ensures Kept(Flag, value) == "1" || Kept(Flag, value) == "0"
  {
  }
}
