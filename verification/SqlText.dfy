/** SQL text with placeholders: which question marks are placeholders, and what filling them in gives. */
module SqlText {
  import opened Options

  datatype Value = Null | Int(n: int) | Text(s: string) | Octets(s: string)

  /** A character of the statement, or a value where a placeholder stood. */
  datatype Piece = Ch(c: char) | Lit(v: Value)

  /** Where the scanner is: plain SQL, inside quotes, or after a backslash in a string. */
  datatype Mode = Code | Quoted(q: char) | Backslash(q: char)

  function Next(m: Mode, c: char): Mode {
    match m
    case Code => if c == '`' || c == '\'' || c == '"' then Quoted(c) else Code
    case Quoted(q) => if c == q then Code else if c == '\\' && q != '`' then Backslash(q) else m
    case Backslash(q) => Quoted(q)
  }

  function ModeAfter(m: Mode, s: string): Mode {
    if s == "" then m else Next(ModeAfter(m, s[..|s| - 1]), s[|s| - 1])
  }

  /** A question mark outside quotes. */
  function Holes(m: Mode, s: string): nat {
    if s == "" then 0
    else
      var front, c := s[..|s| - 1], s[|s| - 1];
      Holes(m, front) + (if ModeAfter(m, front).Code? && c == '?' then 1 else 0)
  }

  /** A piece of SQL that opens no quote it does not close, with `n` placeholders. */
  predicate Balanced(s: string, n: nat) {
    ModeAfter(Code, s) == Code && Holes(Code, s) == n
  }

  predicate Neutral(s: string) {
    Balanced(s, 0)
  }

  lemma {:induction false} ScanBoth(m: Mode, a: string, b: string)
    ensures ModeAfter(m, a + b) == ModeAfter(ModeAfter(m, a), b)
    ensures Holes(m, a + b) == Holes(m, a) + Holes(ModeAfter(m, a), b)
  {
    if b == "" {
      assert a + b == a;
    } else {
      ScanBoth(m, a, b[..|b| - 1]);
      assert (a + b)[..|a + b| - 1] == a + b[..|b| - 1];
    }
  }

  lemma BalancedBoth(a: string, n: nat, b: string, k: nat)
    requires Balanced(a, n) && Balanced(b, k)
    ensures Balanced(a + b, n + k)
  {
    ScanBoth(Code, a, b);
  }

  predicate IsPlain(s: string) {
    forall i | 0 <= i < |s| :: s[i] != '`' && s[i] != '\'' && s[i] != '"' && s[i] != '?'
  }

  /** Text of a builder's own: no quote and no question mark. */
  type Plain = s: string | IsPlain(s) witness ""

  lemma {:induction false} PlainIsNeutral(s: string)
    requires IsPlain(s)
    ensures Neutral(s)
  {
    if s != "" {
      PlainIsNeutral(s[..|s| - 1]);
    }
  }

  // ---------------------------------------------------------------- filling in

  /** A statement filled in so far, and the values not used yet. */
  datatype Filling = Filling(mode: Mode, pieces: seq<Piece>, left: seq<Value>)

  function Step(f: Filling, c: char): Option<Filling> {
    if f.mode.Code? && c == '?' then
      if f.left == [] then None else Some(Filling(Code, f.pieces + [Lit(f.left[0])], f.left[1..]))
    else Some(Filling(Next(f.mode, c), f.pieces + [Ch(c)], f.left))
  }

  /** Left to right, each placeholder takes the next value; None when they run out. */
  function Fill(f: Filling, s: string): Option<Filling> {
    if s == "" then Some(f)
    else
      var r := Fill(f, s[..|s| - 1]);
      if r.None? then None else Step(r.value, s[|s| - 1])
  }

  /** The whole statement: every placeholder filled, every value used, every quote closed. */
  function Statement(sql: string, params: seq<Value>): Option<seq<Piece>> {
    var r := Fill(Filling(Code, [], params), sql);
    if r.Some? && r.value.mode == Code && r.value.left == [] then Some(r.value.pieces) else None
  }

  lemma {:induction false} FillBoth(f: Filling, a: string, b: string)
    ensures Fill(f, a + b) == var r := Fill(f, a); if r.None? then None else Fill(r.value, b)
  {
    if b == "" {
      assert a + b == a;
    } else {
      FillBoth(f, a, b[..|b| - 1]);
      assert (a + b)[..|a + b| - 1] == a + b[..|b| - 1];
    }
  }

  function Shifted(pieces: seq<Piece>, f: Filling, more: seq<Value>): Filling {
    Filling(f.mode, pieces + f.pieces, f.left + more)
  }

  lemma StepShift(before: seq<Piece>, f: Filling, more: seq<Value>, c: char)
    requires Step(f, c).Some?
    ensures Step(Shifted(before, f, more), c) == Some(Shifted(before, Step(f, c).value, more))
  {
    if f.mode.Code? && c == '?' {
      assert (f.left + more)[1..] == f.left[1..] + more;
      assert before + (f.pieces + [Lit(f.left[0])]) == before + f.pieces + [Lit(f.left[0])];
    } else {
      assert before + (f.pieces + [Ch(c)]) == before + f.pieces + [Ch(c)];
    }
  }

  /** What stands before a fragment, and values for later ones, do not change how it is filled. */
  lemma {:induction false} FillShift(before: seq<Piece>, f: Filling, more: seq<Value>, s: string)
    requires Fill(f, s).Some?
    ensures Fill(Shifted(before, f, more), s) == Some(Shifted(before, Fill(f, s).value, more))
  {
    if s != "" {
      FillShift(before, f, more, s[..|s| - 1]);
      StepShift(before, Fill(f, s[..|s| - 1]).value, more, s[|s| - 1]);
    }
  }

  lemma {:induction false} FillBalanced(params: seq<Value>, s: string)
    requires Holes(Code, s) <= |params|
    ensures var r := Fill(Filling(Code, [], params), s);
            r.Some? && r.value.mode == ModeAfter(Code, s) && r.value.left == params[Holes(Code, s)..]
  {
    if s != "" {
      FillBalanced(params, s[..|s| - 1]);
    }
  }

  /** A fragment fills in exactly when it has as many placeholders as values and closes its quotes. */
  lemma StatementExactly(s: string, params: seq<Value>)
    ensures Statement(s, params).Some? <==> Balanced(s, |params|)
  {
    if Holes(Code, s) <= |params| {
      FillBalanced(params, s);
    } else {
      TooFew(params, s);
    }
  }

  lemma {:induction false} TooFew(params: seq<Value>, s: string)
    requires Holes(Code, s) > |params|
    ensures Fill(Filling(Code, [], params), s).None?
  {
    var front := s[..|s| - 1];
    if Holes(Code, front) > |params| {
      TooFew(params, front);
    } else {
      FillBalanced(params, front);
    }
  }

  function Chars(s: string): seq<Piece> {
    seq(|s|, i requires 0 <= i < |s| => Ch(s[i]))
  }

  lemma {:induction false} FillNeutral(s: string)
    requires Holes(Code, s) == 0
    ensures Fill(Filling(Code, [], []), s) == Some(Filling(ModeAfter(Code, s), Chars(s), []))
  {
    if s == "" {
      assert Chars(s) == [];
    } else {
      var front, c := s[..|s| - 1], s[|s| - 1];
      FillNeutral(front);
      assert Chars(s) == Chars(front) + [Ch(c)];
    }
  }

  lemma NeutralStatement(s: string)
    requires Neutral(s)
    ensures Statement(s, []) == Some(Chars(s))
  {
    FillNeutral(s);
  }

  // ---------------------------------------------------------------- documents

  /** What a builder puts out, in order: words of its own, a name or other SQL, a bound value, a caller's
      fragment with its values. */
  datatype Doc =
    | Empty
    | Word(word: Plain)
    | Sql(text: string)
    | Bound(value: Value)
    | Raw(fragment: string, values: seq<Value>)
    | Then(first: Doc, second: Doc)
    | Three(first: Doc, second: Doc, third: Doc)
    | Four(first: Doc, second: Doc, third: Doc, fourth: Doc)

  datatype Out = Out(sql: string, params: seq<Value>)

  const EMPTY: Out := Out("", [])

  function Append(out: Out, d: Doc): Out
    decreases d
  {
    match d
    case Empty => out
    case Word(w) => Out(out.sql + w, out.params)
    case Sql(t) => Out(out.sql + t, out.params)
    case Bound(v) => Out(out.sql + "?", out.params + [v])
    case Raw(t, vs) => Out(out.sql + t, out.params + vs)
    case Then(a, b) => Append(Append(out, a), b)
    case Three(a, b, c) => Append(Append(Append(out, a), b), c)
    case Four(a, b, c, e) => Append(Append(Append(Append(out, a), b), c), e)
  }

  predicate IsGood(d: Doc) {
    match d
    case Empty => true
    case Word(_) => true
    case Sql(t) => Neutral(t)
    case Bound(_) => true
    case Raw(t, vs) => Balanced(t, |vs|)
    case Then(a, b) => IsGood(a) && IsGood(b)
    case Three(a, b, c) => IsGood(a) && IsGood(b) && IsGood(c)
    case Four(a, b, c, e) => IsGood(a) && IsGood(b) && IsGood(c) && IsGood(e)
  }

  /** The document with its literals in place. */
  function Rendered(d: Doc): (r: seq<Piece>)
    requires IsGood(d)
  {
    match d
    case Empty => []
    case Word(w) => Chars(w)
    case Sql(t) => Chars(t)
    case Bound(v) => [Lit(v)]
    case Raw(t, vs) =>
      StatementExactly(t, vs);
      Statement(t, vs).value
    case Then(a, b) => Rendered(a) + Rendered(b)
    case Three(a, b, c) => Rendered(a) + Rendered(b) + Rendered(c)
    case Four(a, b, c, e) => Rendered(a) + Rendered(b) + Rendered(c) + Rendered(e)
  }

  ghost predicate Fills(out: Out, pieces: seq<Piece>) {
    Fill(Filling(Code, [], out.params), out.sql) == Some(Filling(Code, pieces, []))
  }

  /** A statement so far, with a fragment and its values behind it. */
  lemma FragmentFills(out: Out, pieces: seq<Piece>, text: string, values: seq<Value>, more: seq<Piece>)
    requires Fills(out, pieces) && Statement(text, values) == Some(more)
    ensures Fills(Out(out.sql + text, out.params + values), pieces + more)
  {
    FillBoth(Filling(Code, [], out.params + values), out.sql, text);
    FillShift([], Filling(Code, [], out.params), values, out.sql);
    assert [] + pieces == pieces && [] + values == values;
    assert Shifted([], Filling(Code, [], out.params), values) == Filling(Code, [], out.params + values);
    FillShift(pieces, Filling(Code, [], values), [], text);
    assert pieces + [] == pieces && values + [] == values;
    assert Shifted(pieces, Filling(Code, [], values), []) == Filling(Code, pieces, values);
    assert Shifted(pieces, Filling(Code, more, []), []) == Filling(Code, pieces + more, []);
  }

  lemma NeutralFills(out: Out, pieces: seq<Piece>, text: string)
    requires Fills(out, pieces) && Neutral(text)
    ensures Fills(Out(out.sql + text, out.params), pieces + Chars(text))
  {
    NeutralStatement(text);
    FragmentFills(out, pieces, text, [], Chars(text));
    assert out.params + [] == out.params;
  }

  lemma HoleFills(v: Value)
    ensures Statement("?", [v]) == Some([Lit(v)])
  {
    var start := Filling(Code, [], [v]);
    assert Fill(start, "?") == Step(start, '?') by {
      assert "?"[..|"?"| - 1] == "";
    }
    assert [v][1..] == [] && [] + [Lit(v)] == [Lit(v)];
  }

  lemma {:induction false} AppendFills(out: Out, pieces: seq<Piece>, d: Doc)
    requires Fills(out, pieces) && IsGood(d)
    ensures Fills(Append(out, d), pieces + Rendered(d))
    decreases d, 1
  {
    match d
    case Empty => assert pieces + [] == pieces;
    case Word(w) =>
      PlainIsNeutral(w);
      NeutralFills(out, pieces, w);
    case Sql(t) => NeutralFills(out, pieces, t);
    case Bound(v) =>
      HoleFills(v);
      FragmentFills(out, pieces, "?", [v], [Lit(v)]);
    case Raw(t, vs) =>
      StatementExactly(t, vs);
      FragmentFills(out, pieces, t, vs, Statement(t, vs).value);
    case Then(_, _) => ThenFill(out, pieces, d);
    case Three(_, _, _) => ThreeFill(out, pieces, d);
    case Four(_, _, _, _) => FourFill(out, pieces, d);
  }

  lemma {:induction false} ThenFill(out: Out, pieces: seq<Piece>, d: Doc)
    requires d.Then? && Fills(out, pieces) && IsGood(d)
    ensures Fills(Append(out, d), pieces + Rendered(d))
    decreases d, 0
  {
    var Then(a, b) := d;
    AppendFills(out, pieces, a);
    AppendFills(Append(out, a), pieces + Rendered(a), b);
    Regroup(pieces, Rendered(a), Rendered(b), [], []);
  }

  lemma {:induction false} ThreeFill(out: Out, pieces: seq<Piece>, d: Doc)
    requires d.Three? && Fills(out, pieces) && IsGood(d)
    ensures Fills(Append(out, d), pieces + Rendered(d))
    decreases d, 0
  {
    var Three(a, b, c) := d;
    AppendFills(out, pieces, a);
    AppendFills(Append(out, a), pieces + Rendered(a), b);
    AppendFills(Append(Append(out, a), b), pieces + Rendered(a) + Rendered(b), c);
    Regroup(pieces, Rendered(a), Rendered(b), Rendered(c), []);
    ThreeAppended(out, a, b, c);
    ThreeRendered(a, b, c);
    SameFills(Append(Append(Append(out, a), b), c), pieces + Rendered(a) + Rendered(b) + Rendered(c),
              Append(out, d), pieces + Rendered(d));
  }

  lemma {:induction false} FourFill(out: Out, pieces: seq<Piece>, d: Doc)
    requires d.Four? && Fills(out, pieces) && IsGood(d)
    ensures Fills(Append(out, d), pieces + Rendered(d))
    decreases d, 0
  {
    var Four(a, b, c, e) := d;
    AppendFills(out, pieces, a);
    AppendFills(Append(out, a), pieces + Rendered(a), b);
    AppendFills(Append(Append(out, a), b), pieces + Rendered(a) + Rendered(b), c);
    AppendFills(Append(Append(Append(out, a), b), c), pieces + Rendered(a) + Rendered(b) + Rendered(c), e);
    Regroup(pieces, Rendered(a), Rendered(b), Rendered(c), Rendered(e));
    FourAppended(out, a, b, c, e);
    FourRendered(a, b, c, e);
    SameFills(Append(Append(Append(Append(out, a), b), c), e),
              pieces + Rendered(a) + Rendered(b) + Rendered(c) + Rendered(e),
              Append(out, d), pieces + Rendered(d));
  }

  lemma SameFills(out: Out, pieces: seq<Piece>, other: Out, others: seq<Piece>)
    requires Fills(out, pieces) && out == other && pieces == others
    ensures Fills(other, others)
  {
  }

  lemma ThreeAppended(out: Out, a: Doc, b: Doc, c: Doc)
    ensures Append(out, Three(a, b, c)) == Append(Append(Append(out, a), b), c)
  {
  }

  lemma ThreeRendered(a: Doc, b: Doc, c: Doc)
    requires IsGood(a) && IsGood(b) && IsGood(c)
    ensures Rendered(Three(a, b, c)) == Rendered(a) + Rendered(b) + Rendered(c)
  {
  }

  lemma FourAppended(out: Out, a: Doc, b: Doc, c: Doc, e: Doc)
    ensures Append(out, Four(a, b, c, e)) == Append(Append(Append(Append(out, a), b), c), e)
  {
  }

  lemma FourRendered(a: Doc, b: Doc, c: Doc, e: Doc)
    requires IsGood(a) && IsGood(b) && IsGood(c) && IsGood(e)
    ensures Rendered(Four(a, b, c, e)) == Rendered(a) + Rendered(b) + Rendered(c) + Rendered(e)
  {
  }

  lemma Regroup(p: seq<Piece>, a: seq<Piece>, b: seq<Piece>, c: seq<Piece>, e: seq<Piece>)
    ensures p + a + b == p + (a + b)
    ensures p + a + b + c == p + (a + b + c)
    ensures p + a + b + c + e == p + (a + b + c + e)
  {
  }

  /** Filling the parameter vector into the placeholders, left to right, gives the document with its literals
      in place. */
  lemma StatementOfDocument(d: Doc)
    requires IsGood(d)
    ensures var out := Append(EMPTY, d); Statement(out.sql, out.params) == Some(Rendered(d))
  {
    AppendFills(EMPTY, [], d);
    assert [] + Rendered(d) == Rendered(d);
  }

  /** The values a document binds. */
  function ValuesOf(d: Doc): seq<Value> {
    match d
    case Empty => []
    case Word(_) => []
    case Sql(_) => []
    case Bound(v) => [v]
    case Raw(_, vs) => vs
    case Then(a, b) => ValuesOf(a) + ValuesOf(b)
    case Three(a, b, c) => ValuesOf(a) + ValuesOf(b) + ValuesOf(c)
    case Four(a, b, c, e) => ValuesOf(a) + ValuesOf(b) + ValuesOf(c) + ValuesOf(e)
  }

  /** However far a document has got, it adds exactly its own values. */
  lemma {:induction false} AppendValues(out: Out, d: Doc)
    ensures Append(out, d).params == out.params + ValuesOf(d)
    decreases d
  {
    match d
    case Then(a, b) =>
      AppendValues(out, a);
      AppendValues(Append(out, a), b);
      RegroupValues(out.params, ValuesOf(a), ValuesOf(b), [], []);
    case Three(a, b, c) =>
      AppendValues(out, a);
      AppendValues(Append(out, a), b);
      AppendValues(Append(Append(out, a), b), c);
      RegroupValues(out.params, ValuesOf(a), ValuesOf(b), ValuesOf(c), []);
    case Four(a, b, c, e) =>
      AppendValues(out, a);
      AppendValues(Append(out, a), b);
      AppendValues(Append(Append(out, a), b), c);
      AppendValues(Append(Append(Append(out, a), b), c), e);
      RegroupValues(out.params, ValuesOf(a), ValuesOf(b), ValuesOf(c), ValuesOf(e));
    case _ =>
  }

  lemma RegroupValues(p: seq<Value>, a: seq<Value>, b: seq<Value>, c: seq<Value>, e: seq<Value>)
    ensures p + a + b == p + (a + b)
    ensures p + a + b + c == p + (a + b + c)
    ensures p + a + b + c + e == p + (a + b + c + e)
  {
  }

  // ---------------------------------------------------------------- placeholders and quotes

  /** Outside quotes every question mark is a placeholder. */
  lemma {:induction false} OutsideQuotes(s: string)
    requires forall i | 0 <= i < |s| :: s[i] != '`' && s[i] != '\'' && s[i] != '"'
    ensures Balanced(s, multiset(s)['?'])
  {
    if s != "" {
      var front, c := s[..|s| - 1], s[|s| - 1];
      OutsideQuotes(front);
      assert s == front + [c];
    }
  }

  lemma {:induction false} InsideQuotes(q: char, body: string)
    requires q == '`' || q == '\'' || q == '"'
    requires forall i | 0 <= i < |body| :: body[i] != q && (body[i] != '\\' || q == '`')
    ensures ModeAfter(Quoted(q), body) == Quoted(q) && Holes(Quoted(q), body) == 0
  {
    if body != "" {
      InsideQuotes(q, body[..|body| - 1]);
    }
  }

  /** Inside any of the three quotes none is; a backslash is an ordinary character between backticks. */
  lemma QuotedHides(q: char, body: string)
    requires q == '`' || q == '\'' || q == '"'
    requires forall i | 0 <= i < |body| :: body[i] != q && (body[i] != '\\' || q == '`')
    ensures Neutral([q] + body + [q])
  {
    assert [q][..0] == "";
    ScanBoth(Code, [q], body);
    InsideQuotes(q, body);
    ScanBoth(Code, [q] + body, [q]);
  }

  lemma ScanOne(s: string, c: char, m: Mode, holes: nat)
    requires ModeAfter(Code, s) == m && Holes(Code, s) == holes && !(m.Code? && c == '?')
    ensures ModeAfter(Code, s + [c]) == Next(m, c) && Holes(Code, s + [c]) == holes
  {
    assert (s + [c])[..|s|] == s;
  }

  /** In a string a backslash takes the character behind it along, a quote included. */
  lemma BackslashHides(q: char, c: char)
    requires q == '\'' || q == '"'
    ensures Neutral("" + [q] + ['\\'] + [c] + [q])
  {
    ScanOne("", q, Code, 0);
    ScanOne("" + [q], '\\', Quoted(q), 0);
    ScanOne("" + [q] + ['\\'], c, Backslash(q), 0);
    ScanOne("" + [q] + ['\\'] + [c], q, Quoted(q), 0);
  }
}
