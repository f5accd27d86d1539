/** escapeColumn of zero/db/db_query.cc: quoting of column and table names. */
module Identifiers {
  import opened Options
  import opened SqlText

  /** Every backtick doubled. */
  function Doubled(name: string): string {
    if name == "" then ""
    else Doubled(name[..|name| - 1]) + (if name[|name| - 1] == '`' then "``" else [name[|name| - 1]])
  }

  function Quote(name: string): string {
    "`" + Doubled(name) + "`"
  }

  function DotAt(s: string): (k: nat)
    ensures k <= |s| && (k < |s| ==> s[k] == '.') && '.' !in s[..k]
  {
    if s == "" then 0
    else if s[0] == '.' then 0
    else
      var k := 1 + DotAt(s[1..]);
      assert s[..k] == [s[0]] + s[1..][..k - 1];
      k
  }

  /** Up to the first dot, and behind it. */
  function Line(s: string): (part: string)
    ensures '.' !in part && |part| <= |s| && (|part| == |s| ==> part == s)
  {
    s[..DotAt(s)]
  }

  function AfterLine(s: string): (rest: string)
    requires s != ""
    ensures |rest| < |s|
  {
    if DotAt(s) < |s| then s[DotAt(s) + 1..] else ""
  }

  /** What getline reads up to each dot; nothing follows a dot at the very end. */
  function Parts(s: string): (ps: seq<string>)
    ensures s != "" ==> |ps| > 0
    decreases |s|
  {
    if s == "" then [] else [Line(s)] + Parts(AfterLine(s))
  }

  function EscapedPart(part: string): string {
    if part == "" || part == "*" then part else Quote(part)
  }

  function Dotted(parts: seq<string>, n: nat): string
    requires n <= |parts|
  {
    if n == 0 then "" else Dotted(parts, n - 1) + (if n > 1 then "." else "") + EscapedPart(parts[n - 1])
  }

  /** Names with a parenthesis are taken as expressions and left alone. */
  function Escaped(col: string): string {
    if col == "" || col == "*" || '(' in col then col
    else if '.' in col then Dotted(Parts(col), |Parts(col)|)
    else Quote(col)
  }

  method QuoteName(col: string) returns (r: string)
    ensures r == Quote(col)
  {
    r := "`";
    for i := 0 to |col|
      invariant r == "`" + Doubled(col[..i])
    {
      assert col[..i + 1][..i] == col[..i];
      if col[i] == '`' {
        r := r + "`";
      }
      r := r + [col[i]];
    }
    assert col[..|col|] == col;
    r := r + "`";
  }

  lemma Lacks(s: string, from: nat, to: nat, c: char)
    requires from <= to <= |s|
    ensures c !in s ==> c !in s[from..to]
  {
  }

  lemma LineLacks(s: string)
    requires s != "" && '(' !in s
    ensures '(' !in Line(s) && '(' !in AfterLine(s)
  {
    var k := DotAt(s);
    Lacks(s, 0, k, '(');
    if k < |s| {
      Lacks(s, k + 1, |s|, '(');
    }
  }

  method EscapeColumn(col: string) returns (r: string)
    ensures r == Escaped(col)
    decreases |col|, 1
  {
    if col == "" {
      return col;
    }
    if col == "*" {
      return col;
    }
    if '(' in col {
      return col;
    }
    if '.' in col {
      r := EscapeParts(col);
      return;
    }
    r := QuoteName(col);
  }

  /** The loop over the parts of table.column. */
  method EscapeParts(col: string) returns (r: string)
    requires '.' in col && '(' !in col
    ensures r == Dotted(Parts(col), |Parts(col)|)
    decreases |col|, 0
  {
    r := "";
    var first, stream := true, col;
    ghost var parts, n := Parts(col), 0;
    assert parts[0..] == parts;
    while stream != ""
      invariant n <= |parts| && r == Dotted(parts, n) && (first <==> n == 0)
      invariant parts[n..] == Parts(stream) && '(' !in stream
      invariant stream == col || |stream| < |col|
      decreases |stream|
    {
      LineLacks(stream);
      var part := Line(stream);
      stream := AfterLine(stream);
      assert parts[n] == parts[n..][0] == part && parts[n + 1..] == parts[n..][1..] == Parts(stream);
      if !first {
        r := r + ".";
      }
      var escaped := EscapeColumn(part);
      PlainPart(part);
      r := r + escaped;
      first := false;
      n := n + 1;
    }
  }

  lemma PlainPart(part: string)
    requires '(' !in part && '.' !in part
    ensures Escaped(part) == EscapedPart(part)
  {
  }

  // ---------------------------------------------------------------- what quoting achieves

  lemma {:induction false} DoubledStaysQuoted(name: string)
    ensures ModeAfter(Quoted('`'), Doubled(name)) == Quoted('`') && Holes(Quoted('`'), Doubled(name)) == 0
  {
    if name != "" {
      var front, c := name[..|name| - 1], name[|name| - 1];
      DoubledStaysQuoted(front);
      if c == '`' {
        ScanBoth(Quoted('`'), Doubled(front), "``");
        assert "``"[..1] == "`" && "`"[..0] == "";
      } else {
        ScanBoth(Quoted('`'), Doubled(front), [c]);
        assert [c][..0] == "";
      }
    }
  }

  /** Whatever a name contains, quoted it closes its quotes and holds no placeholder. */
  lemma QuoteNeutral(name: string)
    ensures Neutral(Quote(name))
  {
    assert "`"[..0] == "";
    ScanBoth(Code, "`", Doubled(name));
    DoubledStaysQuoted(name);
    ScanBoth(Code, "`" + Doubled(name), "`");
  }

  predicate GoodColumn(col: string) {
    '(' in col ==> Neutral(col)
  }

  lemma {:induction false} DottedNeutral(parts: seq<string>, n: nat)
    requires n <= |parts|
    ensures Neutral(Dotted(parts, n))
  {
    if n > 0 {
      DottedNeutral(parts, n - 1);
      PlainIsNeutral(".");
      BalancedBoth(Dotted(parts, n - 1), 0, ".", 0);
      PartNeutral(parts[n - 1]);
      var before := Dotted(parts, n - 1) + (if n > 1 then "." else "");
      assert Dotted(parts, n - 1) + "" == Dotted(parts, n - 1);
      BalancedBoth(before, 0, EscapedPart(parts[n - 1]), 0);
    }
  }

  lemma PartNeutral(part: string)
    ensures Neutral(EscapedPart(part))
  {
    if part == "" || part == "*" {
      PlainIsNeutral(part);
    } else {
      QuoteNeutral(part);
    }
  }

  /** An escaped name holds no placeholder and leaves no quote open, unless it is an expression that does. */
  lemma EscapedNeutral(col: string)
    ensures GoodColumn(col) <==> Neutral(Escaped(col))
  {
    if col == "" || col == "*" {
      PlainIsNeutral(col);
    } else if '(' !in col {
      if '.' in col {
        DottedNeutral(Parts(col), |Parts(col)|);
      } else {
        QuoteNeutral(col);
      }
    }
  }

  /** The database's reading of the rest of a quoted name: a doubled backtick is a backtick, a single one
      ends the name. */
  function ReadName(s: string): Option<(string, string)> {
    if s == "" then None
    else if s[0] != '`' then
      var r := ReadName(s[1..]);
      if r.None? then None else Some(([s[0]] + r.value.0, r.value.1))
    else if |s| > 1 && s[1] == '`' then
      var r := ReadName(s[2..]);
      if r.None? then None else Some((['`'] + r.value.0, r.value.1))
    else Some(("", s[1..]))
  }

  lemma {:induction false} DoubledFront(name: string)
    requires name != ""
    ensures Doubled(name) == (if name[0] == '`' then "``" else [name[0]]) + Doubled(name[1..])
  {
    if |name| == 1 {
      assert name[..0] == "" && name[1..] == "";
    } else {
      var front := name[..|name| - 1];
      DoubledFront(front);
      assert front[1..] == name[1..][..|name| - 2];
    }
  }

  lemma {:induction false} DoubledReadsBack(name: string, rest: string)
    requires rest == "" || rest[0] != '`'
    ensures ReadName(Doubled(name) + "`" + rest) == Some((name, rest))
    decreases |name|
  {
    var s := Doubled(name) + "`" + rest;
    if name == "" {
      assert s == "`" + rest && s[1..] == rest;
    } else {
      DoubledFront(name);
      DoubledReadsBack(name[1..], rest);
      var tail := Doubled(name[1..]) + "`" + rest;
      if name[0] == '`' {
        assert s == "``" + tail && s[2..] == tail;
      } else {
        assert s == [name[0]] + tail && s[1..] == tail;
      }
      assert name == [name[0]] + name[1..];
    }
  }

  /** A quoted name is read as exactly that name, whatever it contains: nothing in it can end it early. */
  lemma QuoteReadsBack(name: string, rest: string)
    requires rest == "" || rest[0] != '`'
    ensures Quote(name)[0] == '`' && ReadName((Quote(name) + rest)[1..]) == Some((name, rest))
  {
    DoubledReadsBack(name, rest);
    assert (Quote(name) + rest)[1..] == Doubled(name) + "`" + rest;
  }

  lemma DotAfter(part: string, rest: string)
    requires '.' !in part
    ensures DotAt(part + "." + rest) == |part|
  {
    var s := part + "." + rest;
    if part != "" {
      DotAfter(part[1..], rest);
      assert s[1..] == part[1..] + "." + rest;
    }
  }

  lemma PartsOf(part: string, rest: string)
    requires '.' !in part
    ensures Parts(part + "." + rest) == [part] + Parts(rest)
  {
    var s := part + "." + rest;
    DotAfter(part, rest);
    assert s[..|part|] == part && s[|part| + 1..] == rest;
  }

  lemma Grouped(a: string, b: string, c: string)
    ensures (a + "." + b) + "." + c == a + "." + (b + "." + c)
    ensures "" + "" + a == a && a + "." + ("" + "" + c) == a + "." + c
  {
  }

  lemma DottedStep(parts: seq<string>, n: nat)
    requires 0 < n <= |parts|
    ensures Dotted(parts, n) == if n == 1 then EscapedPart(parts[0]) else Dotted(parts, n - 1) + "." + EscapedPart(parts[n - 1])
  {
    Grouped(EscapedPart(parts[0]), "", "");
  }

  lemma {:induction false} DottedFront(part: string, parts: seq<string>, n: nat)
    requires 0 < n <= |parts|
    ensures Dotted([part] + parts, n + 1) == EscapedPart(part) + "." + Dotted(parts, n)
  {
    DottedStep([part] + parts, n + 1);
    DottedStep(parts, n);
    if n == 1 {
      DottedStep([part] + parts, 1);
    } else {
      DottedFront(part, parts, n - 1);
      Grouped(EscapedPart(part), Dotted(parts, n - 1), EscapedPart(parts[n - 1]));
    }
  }

  lemma HasDot(part: string, rest: string, s: string)
    requires s == part + "." + rest && '(' !in part && '(' !in rest
    ensures '.' in s && '(' !in s && s != "" && s != "*"
  {
    assert s[|part|] == '.';
    forall i | 0 <= i < |s|
      ensures s[i] != '('
    {
      assert s[i] == if i < |part| then part[i] else if i == |part| then '.' else rest[i - |part| - 1];
    }
  }

  /** A dotted name is escaped part by part: the part before the first dot, the dot, and what follows it as
      a name of its own. */
  lemma EscapedDotted(part: string, rest: string)
    requires '.' !in part && '(' !in part && '(' !in rest && rest != ""
    ensures Escaped(part + "." + rest) == (if part == "" || part == "*" then part else Quote(part)) + "." + Escaped(rest)
  {
    HasDot(part, rest, part + "." + rest);
    PartsOf(part, rest);
    DottedFront(part, Parts(rest), |Parts(rest)|);
    if '.' !in rest {
      WholePart(rest);
    } else {
      assert rest != "*";
    }
  }

  lemma WholePart(rest: string)
    requires rest != "" && '.' !in rest && '(' !in rest
    ensures Parts(rest) == [rest] && Dotted([rest], 1) == Escaped(rest)
  {
    assert Line(rest) == rest;
    assert Dotted([rest], 1) == "" + "" + EscapedPart(rest);
  }

  /** The empty name, the star and everything with a parenthesis are left alone; a name without a dot is
      quoted. */
  lemma EscapedPlain(col: string)
    ensures col == "" || col == "*" || '(' in col ==> Escaped(col) == col
    ensures col != "" && col != "*" && '(' !in col && '.' !in col ==> Escaped(col) == "`" + Doubled(col) + "`"
  {
  }
}
