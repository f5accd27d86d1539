/** What the header scanners of zero/http/http_session.cc answer, said of the header's text: which field
    decides, what stands in it, and what the request line is made of. */
module HttpText {
  import opened Options
  import opened HttpScan
  import Sequences

  predicate IsBlank(c: char) {
    c == ' ' || c == '\t'
  }

  /** `name` is the field name `word`, in whatever case. */
  predicate Names(name: string, word: string) {
    |name| == |word| && forall j | 0 <= j < |word| :: Lower(name[j]) == word[j]
  }

  /** The field `word` occurs first behind `before`; then come blanks, and `value` to the end of the header. */
  predicate FirstField(h: string, word: string, before: string, name: string, blanks: string, value: string) {
    && h == before + (name + (blanks + value)) && Names(name, word)
    && (forall k | 0 <= k < |blanks| :: IsBlank(blanks[k])) && (value == "" || !IsBlank(value[0]))
    && (forall k | 0 <= k < |before| :: !AtFold(h, k, word))
  }

  /** The characters of `h` behind the blanks of the field. */
  lemma FieldAt(h: string, word: string, before: string, name: string, blanks: string, value: string)
    requires FirstField(h, word, before, name, blanks, value)
    ensures |h| == |before| + |word| + |blanks| + |value| && AtFold(h, |before|, word)
    ensures h[|before| + |word| + |blanks|..] == value
    ensures forall k | |before| + |word| <= k < |before| + |word| + |blanks| :: IsBlank(h[k])
  {
    forall j | 0 <= j < |word|
      ensures Lower(h[|before| + j]) == word[j]
    {
      assert h[|before| + j] == name[j];
    }
    forall k | |before| + |word| <= k < |before| + |word| + |blanks|
      ensures IsBlank(h[k])
    {
      assert h[k] == blanks[k - |before| - |word|];
    }
  }

  lemma FoundAt(h: string, word: string, at: nat)
    requires AtFold(h, at, word) && forall k | 0 <= k < at :: !AtFold(h, k, word)
    ensures FindFold(h, 0, word) == Some(at)
  {
  }

  lemma {:induction false} SkipsTo(h: string, i: nat, n: nat)
    requires i <= n <= |h| && (forall k | i <= k < n :: IsBlank(h[k])) && (n < |h| ==> !IsBlank(h[n]))
    ensures SkipBlanks(h, i) == n
    decreases n - i
  {
    if i < n {
      SkipsTo(h, i + 1, n);
    }
  }

  lemma FieldNamed(h: string, word: string, before: string, name: string, blanks: string, value: string)
    requires FirstField(h, word, before, name, blanks, value)
    ensures FindFold(h, 0, word) == Some(|before|) && |before| + |word| <= |h|
  {
    FieldAt(h, word, before, name, blanks, value);
    FoundAt(h, word, |before|);
  }

  lemma ValueAt(h: string, i: nat, v: nat, value: string)
    requires i <= v <= |h| && h[v..] == value && (value == "" || !IsBlank(value[0]))
    requires forall k | i <= k < v :: IsBlank(h[k])
    ensures SkipBlanks(h, i) == v
  {
    assert v < |h| ==> h[v] == value[0];
    SkipsTo(h, i, v);
  }

  /** Where the scanners find a field and its value. */
  lemma FieldFound(h: string, word: string, before: string, name: string, blanks: string, value: string)
    requires FirstField(h, word, before, name, blanks, value)
    ensures FindFold(h, 0, word) == Some(|before|)
    ensures |before| + |word| <= |h| && SkipBlanks(h, |before| + |word|) == |before| + |word| + |blanks|
  {
    FieldNamed(h, word, before, name, blanks, value);
    FieldAt(h, word, before, name, blanks, value);
    var i := |before| + |word|;
    ValueAt(h, i, i + |blanks|, value);
  }

  lemma FieldMade(h: string, word: string, before: string, name: string, blanks: string, value: string, i: nat)
    requires h == before + (name + (blanks + value)) && Names(name, word) && |before| == i
    requires forall k | 0 <= k < |blanks| :: IsBlank(blanks[k])
    requires value == "" || !IsBlank(value[0])
    requires forall k | 0 <= k < i :: !AtFold(h, k, word)
    ensures FirstField(h, word, before, name, blanks, value)
  {
  }

  /** A field that occurs has a name, blanks and a value. */
  lemma FieldOf(h: string, word: string)
    returns (before: string, name: string, blanks: string, value: string)
    requires FindFold(h, 0, word).Some?
    ensures FirstField(h, word, before, name, blanks, value)
  {
    var i := FindFold(h, 0, word).value;
    var j := i + |word|;
    var v := SkipBlanks(h, j);
    before, name, blanks, value := h[..i], h[i..j], h[j..v], h[v..];
    BlanksBetween(h, j);
    BlanksOf(h, j, v);
    NamedAt(h, i, word);
    Reassembled(h, i, j, v);
    FieldMade(h, word, before, name, blanks, value, i);
  }

  lemma BlanksOf(h: string, i: nat, v: nat)
    requires i <= v <= |h| && (forall k | i <= k < v :: IsBlank(h[k])) && (v < |h| ==> !IsBlank(h[v]))
    ensures (forall k | 0 <= k < |h[i..v]| :: IsBlank(h[i..v][k])) && (h[v..] == "" || !IsBlank(h[v..][0]))
  {
    forall k | 0 <= k < v - i
      ensures IsBlank(h[i..v][k])
    {
      assert h[i..v][k] == h[i + k];
    }
  }

  lemma Reassembled(h: string, i: nat, j: nat, k: nat)
    requires i <= j <= k <= |h|
    ensures h == h[..i] + (h[i..j] + (h[j..k] + h[k..]))
  {
    Sequences.Cut(h, i);
    CutTwice(h, i, j, k);
  }

  lemma NamedAt(h: string, i: nat, word: string)
    requires AtFold(h, i, word)
    ensures Names(h[i..i + |word|], word)
  {
    var name := h[i..i + |word|];
    forall j | 0 <= j < |word|
      ensures Lower(name[j]) == word[j]
    {
      assert name[j] == h[i + j];
    }
  }

  lemma CutTwice(h: string, i: nat, j: nat, k: nat)
    requires i <= j <= k <= |h|
    ensures h[i..] == h[i..j] + (h[j..k] + h[k..])
  {
  }

  lemma {:induction false} BlanksBetween(h: string, i: nat)
    requires i <= |h|
    ensures var v := SkipBlanks(h, i); (forall k | i <= k < v :: IsBlank(h[k])) && (v < |h| ==> !IsBlank(h[v]))
    decreases |h| - i
  {
    if i < |h| && IsBlank(h[i]) {
      BlanksBetween(h, i + 1);
    }
  }

  // ------------------------------------------------------------------ connection: close

  /** `value` begins with "close", in whatever case. */
  predicate BeginsWithClose(value: string) {
    |value| >= 5 && Names(value[..5], "close")
  }

  /** The first connection field of the header asks to close. */
  ghost predicate AsksToClose(h: string) {
    exists before, name, blanks, value ::
      FirstField(h, "connection:", before, name, blanks, value) && BeginsWithClose(value)
  }

  /** The first connection field decides, by what follows its blanks. */
  lemma CloseOnText(h: string, before: string, name: string, blanks: string, value: string)
    requires FirstField(h, "connection:", before, name, blanks, value)
    ensures WantsClose(h) <==> BeginsWithClose(value)
  {
    var word := "connection:";
    FieldAt(h, word, before, name, blanks, value);
    FieldFound(h, word, before, name, blanks, value);
    var v := |before| + |word| + |blanks|;
    BehindAt(h, v, value, "close");
  }

  /** A word behind position `v` is at the front of what is behind `v`. */
  lemma BehindAt(h: string, v: nat, value: string, word: string)
    requires v <= |h| && h[v..] == value
    ensures AtFold(h, v, word) <==> |value| >= |word| && Names(value[..|word|], word)
  {
    assert forall j | 0 <= j < |value| :: h[v + j] == value[j];
  }

  lemma CloseExactly(h: string)
    ensures WantsClose(h) <==> AsksToClose(h)
    ensures (forall k | 0 <= k < |h| :: !AtFold(h, k, "connection:")) ==> !WantsClose(h)
  {
    if FindFold(h, 0, "connection:").Some? {
      var before, name, blanks, value := FieldOf(h, "connection:");
      CloseOnText(h, before, name, blanks, value);
      assert BeginsWithClose(value) ==> AsksToClose(h);
    }
    if AsksToClose(h) {
      var before, name, blanks, value :|
        FirstField(h, "connection:", before, name, blanks, value) && BeginsWithClose(value);
      CloseOnText(h, before, name, blanks, value);
    }
  }

  // ------------------------------------------------------------------ a message body

  predicate IsDigit(c: char) {
    '0' <= c <= '9'
  }

  /** The number the digits spell, the last one counting ones. */
  function NumberOf(digits: string): nat
    requires forall k | 0 <= k < |digits| :: IsDigit(digits[k])
  {
    if digits == "" then 0
    else
      assert IsDigit(digits[|digits| - 1]);
      10 * NumberOf(digits[..|digits| - 1]) + (digits[|digits| - 1] as int - '0' as int)
  }

  const WORD_64: int := 0x1_0000_0000_0000_0000

  lemma ModStep(x: nat, d: nat)
    ensures (x % WORD_64 * 10 + d) % WORD_64 == (x * 10 + d) % WORD_64
  {
    var q := x / WORD_64;
    assert x * 10 + d == (x % WORD_64 * 10 + d) + WORD_64 * (10 * q);
    ModMultiple(x % WORD_64 * 10 + d, 10 * q);
  }

  lemma ModMultiple(a: nat, k: nat)
    ensures (a + WORD_64 * k) % WORD_64 == a % WORD_64
  {
  }

  /** Reading on behind the first `k` digits. */
  lemma {:induction false} DigitsFrom(h: string, i: nat, digits: string, k: nat)
    requires i + |digits| <= |h| && h[i..i + |digits|] == digits && k <= |digits|
    requires forall j | 0 <= j < |digits| :: IsDigit(digits[j])
    requires i + |digits| < |h| ==> !IsDigit(h[i + |digits|])
    ensures Digits(h, i + k, NumberOf(digits[..k]) % WORD_64) == NumberOf(digits) % WORD_64
    decreases |digits| - k
  {
    if k == |digits| {
      assert digits[..k] == digits;
    } else {
      assert h[i + k] == h[i..i + |digits|][k] == digits[k];
      assert digits[..k + 1][..k] == digits[..k];
      ModStep(NumberOf(digits[..k]), digits[k] as int - '0' as int);
      DigitsFrom(h, i, digits, k + 1);
    }
  }

  lemma NoneYet(digits: string)
    requires forall j | 0 <= j < |digits| :: IsDigit(digits[j])
    ensures NumberOf(digits[..0]) % WORD_64 == 0
  {
  }

  lemma DigitsRead(h: string, i: nat, digits: string)
    requires i + |digits| <= |h| && h[i..i + |digits|] == digits
    requires forall j | 0 <= j < |digits| :: IsDigit(digits[j])
    requires i + |digits| < |h| ==> !IsDigit(h[i + |digits|])
    ensures Digits(h, i, 0) == NumberOf(digits) % WORD_64
  {
    NoneYet(digits);
    DigitsFrom(h, i, digits, 0);
  }

  /** `value` is `digits` and something that does not go on with a digit. */
  predicate Counts(value: string, digits: string) {
    && |digits| <= |value| && value[..|digits|] == digits
    && (forall j | 0 <= j < |digits| :: IsDigit(digits[j]))
    && (|digits| < |value| ==> !IsDigit(value[|digits|]))
  }

  lemma DigitsBehind(h: string, v: nat, value: string, digits: string)
    requires v <= |h| && h[v..] == value && Counts(value, digits)
    ensures Digits(h, v, 0) == NumberOf(digits) % WORD_64
  {
    assert h[v..v + |digits|] == h[v..][..|digits|];
    assert v + |digits| < |h| ==> h[v + |digits|] == h[v..][|digits|];
    DigitsRead(h, v, digits);
  }

  lemma BodyAt(h: string, i: nat, v: nat)
    requires FindFold(h, 0, "content-length:") == Some(i) && i + 15 <= |h| && v <= |h| && SkipBlanks(h, i + 15) == v
    ensures HasMessageBody(h) <==> Digits(h, v, 0) > 0
  {
  }

  /** The first content-length field decides: its number, of which 64 bits are looked at, is not 0. */
  lemma LengthOnText(h: string, before: string, name: string, blanks: string, value: string, digits: string)
    requires FirstField(h, "content-length:", before, name, blanks, value) && Counts(value, digits)
    ensures HasMessageBody(h) <==> NumberOf(digits) % WORD_64 > 0
  {
    var word := "content-length:";
    FieldAt(h, word, before, name, blanks, value);
    FieldFound(h, word, before, name, blanks, value);
    DigitsBehind(h, |before| + |word| + |blanks|, value, digits);
    BodyAt(h, |before|, |before| + |word| + |blanks|);
  }

  /** Without one, a transfer-encoding field in lower case does, whatever it says. */
  lemma NoLengthOnText(h: string)
    requires forall k | 0 <= k < |h| :: !AtFold(h, k, "content-length:")
    ensures HasMessageBody(h) <==> exists k | 0 <= k < |h| :: At(h, k, "transfer-encoding:")
  {
  }

  /** The header announces a body: the number of its first content-length field, or for want of one a
      transfer-encoding field. */
  ghost predicate AnnouncesBody(h: string) {
    if exists k :: 0 <= k < |h| && AtFold(h, k, "content-length:") then HasLength(h)
    else exists k :: 0 <= k < |h| && At(h, k, "transfer-encoding:")
  }

  ghost predicate HasLength(h: string) {
    exists before, name, blanks, value, digits :: LengthField(h, before, name, blanks, value, digits)
  }

  predicate LengthField(h: string, before: string, name: string, blanks: string, value: string, digits: string) {
    && FirstField(h, "content-length:", before, name, blanks, value) && Counts(value, digits)
    && NumberOf(digits) % WORD_64 > 0
  }

  lemma {:induction false} DigitsOf(value: string) returns (digits: string)
    ensures Counts(value, digits)
  {
    if value == "" || !IsDigit(value[0]) {
      digits := "";
    } else {
      var rest := DigitsOf(value[1..]);
      digits := [value[0]] + rest;
      assert value[..|digits|] == [value[0]] + value[1..][..|rest|];
      assert |digits| < |value| ==> value[|digits|] == value[1..][|rest|];
    }
  }

  lemma BodyExactly(h: string)
    ensures HasMessageBody(h) <==> AnnouncesBody(h)
  {
    if FindFold(h, 0, "content-length:").Some? {
      assert AtFold(h, FindFold(h, 0, "content-length:").value, "content-length:");
      var before, name, blanks, value := FieldOf(h, "content-length:");
      var digits := DigitsOf(value);
      LengthOnText(h, before, name, blanks, value, digits);
      assert LengthField(h, before, name, blanks, value, digits) ==> HasLength(h);
      if HasLength(h) {
        LengthAgrees(h);
      }
    } else {
      NoLengthOnText(h);
    }
  }

  lemma LengthAgrees(h: string)
    requires HasLength(h)
    ensures HasMessageBody(h)
  {
    var before, name, blanks, value, digits :| LengthField(h, before, name, blanks, value, digits);
    LengthOnText(h, before, name, blanks, value, digits);
  }

  // ------------------------------------------------------------------ the request line

  /** `h` begins with "GET ", the target, and " HTTP/" for the first time. */
  predicate RequestLine(h: string, target: string, tail: string) {
    && h == "GET " + (target + (" HTTP/" + tail))
    && forall k | 4 <= k < 4 + |target| :: !At(h, k, " HTTP/")
  }

  /** The target is the path, or the path followed by a query; an empty path stands for all. */
  predicate OnRoute(target: string, path: string) {
    path == "" || ('?' !in path && (target == path || path + "?" <= target))
  }

  lemma RouteOnText(target: string, path: string)
    ensures path == "" || PathPart(target) == path <==> OnRoute(target, path)
  {
    PathPartExactly(target, path);
    assert path + "?" <= target <==> path <= target && path != target && target[|path|] == '?' by {
      if path <= target && path != target && target[|path|] == '?' {
        assert target[..|path| + 1] == path + "?";
      }
      if path + "?" <= target {
        assert target[..|path| + 1] == path + "?";
        assert target[..|path|] == target[..|path| + 1][..|path|];
      }
    }
  }

  lemma LineAt(h: string, target: string, tail: string)
    requires RequestLine(h, target, tail)
    ensures At(h, 0, "GET ") && Find(h, 4, " HTTP/") == Some(4 + |target|) && h[4..4 + |target|] == target
  {
    var rest := target + (" HTTP/" + tail);
    Sequences.Split("GET ", rest);
    AtFront("GET ", rest);
    Sequences.Split(target, " HTTP/" + tail);
    assert h[4..4 + |target|] == h[4..][..|target|];
    AtFront(" HTTP/", tail);
    AtBehind(h, 4 + |target|, " HTTP/" + tail, " HTTP/");
    FirstWord(h, 4, " HTTP/", 4 + |target|);
  }

  lemma AtFront(word: string, rest: string)
    ensures At(word + rest, 0, word)
  {
  }

  lemma AtBehind(h: string, i: nat, rest: string, word: string)
    requires i <= |h| && h[i..] == rest && At(rest, 0, word)
    ensures At(h, i, word)
  {
    forall j | 0 <= j < |word|
      ensures h[i + j] == word[j]
    {
      assert rest[0 + j] == word[j];
    }
  }

  lemma FirstWord(h: string, from: nat, word: string, at: nat)
    requires from <= at && At(h, at, word) && forall k | from <= k < at :: !At(h, k, word)
    ensures Find(h, from, word) == Some(at)
  {
  }

  /** Which requests are hits. */
  lemma HitOnText(h: string, target: string, tail: string, path: string)
    requires RequestLine(h, target, tail)
    ensures ScanHeader(h, path)
         == if |h| >= 16 && target != "" && !HasMessageBody(h) && OnRoute(target, path)
            then Found(|h|, WantsClose(h)) else Fallback
  {
    LineAt(h, target, tail);
    RouteOnText(target, path);
  }

  lemma LineFound(h: string, end: nat, target: string, tail: string)
    requires At(h, 0, "GET ") && Find(h, 4, " HTTP/") == Some(end) && end + 6 <= |h|
    requires target == h[4..end] && tail == h[end + 6..]
    ensures RequestLine(h, target, tail)
  {
    WordAt(h, 0, "GET ");
    WordAt(h, end, " HTTP/");
    Reassembled(h, 4, end, end + 6);
    LineMade(h, target, tail, end);
  }

  lemma LineMade(h: string, target: string, tail: string, end: nat)
    requires h == "GET " + (target + (" HTTP/" + tail)) && 4 + |target| == end
    requires forall k | 4 <= k < end :: !At(h, k, " HTTP/")
    ensures RequestLine(h, target, tail)
  {
  }

  lemma WordAt(h: string, i: nat, word: string)
    requires At(h, i, word)
    ensures h[i..i + |word|] == word
  {
    assert forall j | 0 <= j < |word| :: h[i + j] == word[j];
  }

  /** Headers without such a line are left to the general parser. */
  lemma NoLineOnText(h: string, path: string)
    requires forall target, tail :: !RequestLine(h, target, tail)
    ensures ScanHeader(h, path) == Fallback
  {
    if ScanHeader(h, path).Found? {
      var end := Find(h, 4, " HTTP/").value;
      LineFound(h, end, h[4..end], h[end + 6..]);
    }
  }

  /** A request for the route that the fast path serves by itself. */
  ghost predicate IsHit(h: string, path: string) {
    && |h| >= 16 && !AnnouncesBody(h)
    && exists target, tail :: RequestLine(h, target, tail) && target != "" && OnRoute(target, path)
  }

  lemma LineUnique(h: string, target: string, tail: string, other: string, rest: string)
    requires RequestLine(h, target, tail) && RequestLine(h, other, rest)
    ensures target == other
  {
    LineAt(h, target, tail);
    LineAt(h, other, rest);
  }

  /** The scan of a complete header, said of its text. */
  lemma ScanExactly(h: string, path: string)
    ensures ScanHeader(h, path) == if IsHit(h, path) then Found(|h|, AsksToClose(h)) else Fallback
  {
    BodyExactly(h);
    CloseExactly(h);
    if target, tail :| RequestLine(h, target, tail) {
      HitOnText(h, target, tail, path);
      forall other, rest | RequestLine(h, other, rest)
        ensures other == target
      {
        LineUnique(h, target, tail, other, rest);
      }
    } else {
      NoLineOnText(h, path);
    }
  }

  // ------------------------------------------------------------------ two requests

  const CLOSING: string := "Connection: close\r\n\r\n"
  const KEEPING: string := "Connection: keep-alive\r\n\r\n"

  lemma Spelling()
    ensures Names("Connection:", "connection:")
    ensures BeginsWithClose("close\r\n\r\n") && !BeginsWithClose("keep-alive\r\n\r\n")
  {
    var n := "Connection:";
    assert Lower(n[0]) == 'c';
    var k := "keep-alive\r\n\r\n"[..5];
    assert Lower(k[0]) != "close"[0];
    assert "close\r\n\r\n"[..5] == "close";
  }

  lemma ClosingParts()
    ensures CLOSING == "Connection:" + (" " + "close\r\n\r\n")
  {
  }

  lemma KeepingParts()
    ensures KEEPING == "Connection:" + (" " + "keep-alive\r\n\r\n")
  {
  }

  /** Behind a line without a colon the two common spellings are told apart. */
  lemma CommonFields(line: string)
    requires ':' !in line
    ensures WantsClose(line + CLOSING) && !WantsClose(line + KEEPING)
  {
    Spelling();
    ClosingParts();
    KeepingParts();
    CommonField(line, "close\r\n\r\n");
    CommonField(line, "keep-alive\r\n\r\n");
  }

  lemma NoColonYet(line: string, rest: string, k: nat)
    requires ':' !in line && k < |line|
    ensures !AtFold(line + ("Connection:" + rest), k, "connection:")
  {
    var h, name, word := line + ("Connection:" + rest), "Connection:", "connection:";
    assert h[k + 10] == if k + 10 < |line| then line[k + 10] else name[k + 10 - |line|];
    assert forall i | 0 <= i < 10 :: name[i] != ':';
    assert Lower(h[k + 10]) != word[10];
  }

  lemma CommonField(line: string, value: string)
    requires ':' !in line && value != "" && !IsBlank(value[0])
    ensures WantsClose(line + ("Connection:" + (" " + value))) <==> BeginsWithClose(value)
  {
    var h := line + ("Connection:" + (" " + value));
    Spelling();
    forall k | 0 <= k < |line|
      ensures !AtFold(h, k, "connection:")
    {
      NoColonYet(line, " " + value, k);
    }
    CloseOnText(h, line, "Connection:", " ", value);
  }
}
