/** zero/http/http_session.cc, the header scanners of the fast GET path. A block is a piece of the read
    buffer; `next` is the character that happens to lie in memory just behind it. */
module HttpScan {
  import opened Options
  import Sequences

  predicate At(s: string, i: nat, word: string) {
    i + |word| <= |s| && forall j | 0 <= j < |word| :: s[i + j] == word[j]
  }

  /** CR LF CR LF, the end of a header. */
  predicate EmptyLineAt(s: string, i: nat) {
    i + 4 <= |s| && s[i] == '\r' && s[i + 1] == '\n' && s[i + 2] == '\r' && s[i + 3] == '\n'
  }

  /** Where the first header ends, searching from `i` on. */
  function HeaderEnd(s: string, i: nat): (r: Option<nat>)
    ensures r.Some? ==> i + 4 <= r.value <= |s| && EmptyLineAt(s, r.value - 4)
                        && forall k | i <= k < r.value - 4 :: !EmptyLineAt(s, k)
    ensures r.None? ==> forall k | i <= k :: !EmptyLineAt(s, k)
    decreases |s| - i
  {
    if i + 4 > |s| then None
    else if EmptyLineAt(s, i) then Some(i + 4)
    else HeaderEnd(s, i + 1)
  }

  function Lower(c: char): char {
    if 'A' <= c <= 'Z' then (c as int + 32) as char else c
  }

  /** strncasecmp against a lower-case word. */
  predicate AtFold(s: string, i: nat, word: string) {
    i + |word| <= |s| && forall j | 0 <= j < |word| :: Lower(s[i + j]) == word[j]
  }

  /** The first position from `i` on where `word` occurs. */
  function Find(s: string, i: nat, word: string): (r: Option<nat>)
    ensures r.Some? ==> i <= r.value && At(s, r.value, word) && forall k | i <= k < r.value :: !At(s, k, word)
    ensures r.None? ==> forall k | i <= k :: !At(s, k, word)
    decreases |s| - i
  {
    if i + |word| > |s| then None
    else if At(s, i, word) then Some(i)
    else Find(s, i + 1, word)
  }

  function FindFold(s: string, i: nat, word: string): (r: Option<nat>)
    ensures r.Some? ==> i <= r.value && AtFold(s, r.value, word) && forall k | i <= k < r.value :: !AtFold(s, k, word)
    ensures r.None? ==> forall k | i <= k :: !AtFold(s, k, word)
    decreases |s| - i
  {
    if i + |word| > |s| then None
    else if AtFold(s, i, word) then Some(i)
    else FindFold(s, i + 1, word)
  }

  /** Past the blanks and tabs. */
  function SkipBlanks(s: string, i: nat): (r: nat)
    requires i <= |s|
    ensures i <= r <= |s|
    decreases |s| - i
  {
    if i < |s| && (s[i] == ' ' || s[i] == '\t') then SkipBlanks(s, i + 1) else i
  }

  /** The value of the digits from `i` on, continuing from `v`, in an unsigned 64-bit accumulator. */
  function Digits(s: string, i: nat, v: nat): nat
    requires i <= |s|
    decreases |s| - i
  {
    if i < |s| && '0' <= s[i] <= '9' then
      Digits(s, i + 1, (v * 10 + (s[i] as int - '0' as int)) % 0x1_0000_0000_0000_0000)
    else v
  }

  predicate WantsClose(h: string) {
    match FindFold(h, 0, "connection:")
    case None => false
    case Some(i) => AtFold(h, SkipBlanks(h, i + 11), "close")
  }

  predicate HasMessageBody(h: string) {
    match FindFold(h, 0, "content-length:")
    case None => Find(h, 0, "transfer-encoding:").Some?
    case Some(i) => Digits(h, SkipBlanks(h, i + 15), 0) > 0
  }

  /** The path without its query. */
  function PathPart(target: string): (p: string)
    ensures p <= target
    ensures '?' !in p
    ensures p != target ==> target[|p|] == '?'
  {
    match Find(target, 0, "?")
    case None => (assert forall k | 0 <= k < |target| :: target[k] == '?' ==> At(target, k, "?"); target)
    case Some(q) =>
      assert forall k | 0 <= k < q :: target[k] == '?' ==> At(target, k, "?");
      assert target[q + 0] == "?"[0];
      target[..q]
  }

  datatype Scan = NeedMore | Fallback | Found(length: nat, close: bool)

  /** What scanGetHeader makes of one complete header. An empty `path` accepts every path. */
  function ScanHeader(h: string, path: string): Scan {
    if |h| < 16 || !At(h, 0, "GET ") || HasMessageBody(h) then Fallback
    else
      match Find(h, 4, " HTTP/")
      case None => Fallback
      case Some(end) =>
        if end <= 4 || (path != "" && PathPart(h[4..end]) != path) then Fallback
        else Found(|h|, WantsClose(h))
  }

  /** The intended scan: only characters of the block count. */
  function ScanBlock(block: string, path: string): Scan {
    match HeaderEnd(block, 0)
    case None => NeedMore
    case Some(end) => ScanHeader(block[..end], path)
  }

  /** The scan the code performs: the last candidate start is three characters before the end of the
      block, so its fourth character is the one behind the block. */
  function ScanMemory(block: string, next: char, path: string): Scan {
    if |block| < 4 then NeedMore else ScanBlock(block + [next], path)
  }

  /** The block ends in CR LF CR and memory goes on with LF, whether or not the peer sent it. */
  predicate Overrun(block: string, next: char) {
    && |block| >= 4 && EmptyLineAt(block + [next], |block| - 3)
    && HeaderEnd(block, 0).None?
  }

  lemma EndUnique(s: string, e: nat)
    requires 4 <= e <= |s| && EmptyLineAt(s, e - 4) && forall k | 0 <= k < e - 4 :: !EmptyLineAt(s, k)
    ensures HeaderEnd(s, 0) == Some(e)
  {
  }

  /** A header that is complete stays where it is when more characters arrive. */
  lemma EndStays(block: string, more: string)
    ensures HeaderEnd(block, 0).Some? ==> HeaderEnd(block + more, 0) == HeaderEnd(block, 0)
    ensures HeaderEnd(block, 0).None? && HeaderEnd(block + more, 0).Some? ==> HeaderEnd(block + more, 0).value > |block|
  {
    var s := block + more;
    forall k | 0 <= k <= |block| - 4
      ensures EmptyLineAt(s, k) <==> EmptyLineAt(block, k)
    {
    }
    if HeaderEnd(block, 0).Some? {
      EndUnique(s, HeaderEnd(block, 0).value);
    }
  }

  lemma EndBehind(block: string, next: char)
    requires HeaderEnd(block, 0).None? && |block| >= 4
    ensures HeaderEnd(block + [next], 0) == if Overrun(block, next) then Some(|block| + 1) else None
  {
    EndStays(block, [next]);
  }

  /** Exactly when the code's scan is the intended one. */
  lemma ScanAsIntended(block: string, next: char, path: string)
    ensures ScanMemory(block, next, path) == ScanBlock(block, path) <==> !Overrun(block, next)
  {
    if |block| >= 4 {
      EndStays(block, [next]);
      match HeaderEnd(block, 0)
      case Some(end) => assert (block + [next])[..end] == block[..end];
      case None => EndBehind(block, next);
    }
  }

  /** Every header can be overrun: when all but its last LF has arrived and memory goes on with an LF,
      it is taken as complete, and one character too many is reported. */
  lemma EveryHeaderCanOverrun(h: string, path: string)
    requires |h| >= 5 && HeaderEnd(h, 0) == Some(|h|)
    ensures ScanBlock(h[..|h| - 1], path) == NeedMore
    ensures ScanMemory(h[..|h| - 1], '\n', path) == ScanHeader(h, path)
  {
    var block := h[..|h| - 1];
    assert block + ['\n'] == h;
    EndStays(block, ['\n']);
    assert HeaderEnd(block, 0).None?;
    assert h[..|h|] == h;
  }

  lemma PathPartExactly(target: string, path: string)
    ensures PathPart(target) == path
       <==> path <= target && '?' !in path && (path == target || target[|path|] == '?')
  {
    var p := PathPart(target);
    if path <= target && p != target {
      assert |p| < |path| ==> path[|p|] == target[|p|];
    }
    if path <= target && path != target {
      assert |path| < |p| ==> p[|path|] == target[|path|];
    }
  }

  /** Which complete requests hit a route: a GET without a body whose target, the characters up to the
      first " HTTP/", is the path, or the path followed by a query. */
  lemma RouteHitExactly(h: string, end: nat, path: string)
    requires |h| >= 16 && At(h, 0, "GET ") && !HasMessageBody(h) && path != ""
    requires 4 < end && Find(h, 4, " HTTP/") == Some(end)
    ensures ScanHeader(h, path).Found?
       <==> path <= h[4..end] && '?' !in path && (path == h[4..end] || h[4 + |path|] == '?')
  {
    PathPartExactly(h[4..end], path);
  }
}
