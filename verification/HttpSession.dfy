/** zero/http/http_session.cc, the fast GET reader: a sliding window over a fixed buffer, filled by
    socket reads of any size, and the scanner loops over it. */
module HttpSession {
  import opened Options
  import opened HttpScan
  import opened HttpText
  import opened HttpWindow
  import Sequences

  // ------------------------------------------------------------------ the scanner loops

  method FindHeaderEnd(block: string, next: char) returns (end: Option<nat>)
    ensures end == if |block| < 4 then None else HeaderEnd(block + [next], 0)
  {
    if |block| < 4 {
      return None;
    }
    var mem := block + [next];
    var p, limit := 0, |block| - 3;
    while p <= limit
      invariant 0 <= p <= limit + 1
      invariant forall k | 0 <= k < p :: !EmptyLineAt(mem, k)
    {
      while p <= limit && mem[p] != '\r'
        invariant 0 <= p <= limit + 1
        invariant forall k | 0 <= k < p :: !EmptyLineAt(mem, k)
      {
        p := p + 1;
      }
      if p > limit {
        return None;
      }
      if mem[p + 1] == '\n' && mem[p + 2] == '\r' && mem[p + 3] == '\n' {
        EndUnique(mem, p + 4);
        return Some(p + 4);
      }
      p := p + 1;
    }
    end := None;
  }

  method MatchesFold(s: string, i: nat, word: string) returns (r: bool)
    ensures r <==> AtFold(s, i, word)
  {
    if i + |word| > |s| {
      return false;
    }
    for j := 0 to |word|
      invariant forall k | 0 <= k < j :: Lower(s[i + k]) == word[k]
    {
      if Lower(s[i + j]) != word[j] {
        return false;
      }
    }
    r := true;
  }

  method SkipBlanksFrom(s: string, from: nat) returns (i: nat)
    requires from <= |s|
    ensures i == SkipBlanks(s, from) && i <= |s|
  {
    i := from;
    while i < |s| && (s[i] == ' ' || s[i] == '\t')
      invariant from <= i <= |s| && SkipBlanks(s, i) == SkipBlanks(s, from)
    {
      i := i + 1;
    }
  }

  lemma FindFoldSkips(h: string, i: nat, word: string)
    requires forall k | 0 <= k < i :: !AtFold(h, k, word)
    ensures FindFold(h, 0, word) == FindFold(h, i, word)
  {
  }

  method ScanConnectionClose(h: string) returns (close: bool)
    ensures close <==> WantsClose(h)
    ensures close <==> AsksToClose(h)
  {
    CloseExactly(h);
    var i := 0;
    while i + 10 < |h|
      invariant forall k | 0 <= k < i :: !AtFold(h, k, "connection:")
    {
      var here := MatchesFold(h, i, "connection:");
      if here {
        FindFoldSkips(h, i, "connection:");
        var v := SkipBlanksFrom(h, i + 11);
        close := MatchesFold(h, v, "close");
        return;
      }
      i := i + 1;
    }
    FindFoldSkips(h, i, "connection:");
    close := false;
  }

  method FindWord(s: string, from: nat, word: string) returns (r: Option<nat>)
    ensures r == Find(s, from, word)
  {
    var i := from;
    while i + |word| <= |s|
      invariant from <= i && Find(s, i, word) == Find(s, from, word)
    {
      var j := 0;
      while j < |word| && s[i + j] == word[j]
        invariant j <= |word| && forall k | 0 <= k < j :: s[i + k] == word[k]
      {
        j := j + 1;
      }
      if j == |word| {
        return Some(i);
      }
      i := i + 1;
    }
    r := None;
  }

  /** Whether the first content-length field has a number other than 0; nothing without such a field. */
  method ScanContentLength(h: string) returns (body: Option<bool>)
    ensures body.None? <==> FindFold(h, 0, "content-length:").None?
    ensures body.Some? ==> (body.value <==> HasMessageBody(h))
  {
    var i := 0;
    while i + 14 < |h|
      invariant forall k | 0 <= k < i :: !AtFold(h, k, "content-length:")
    {
      var here := MatchesFold(h, i, "content-length:");
      if here {
        FindFoldSkips(h, i, "content-length:");
        var v := SkipBlanksFrom(h, i + 15);
        ghost var start := v;
        var cl: nat := 0;
        while v < |h| && '0' <= h[v] <= '9'
          invariant start <= v <= |h| && Digits(h, v, cl) == Digits(h, start, 0)
        {
          cl := (cl * 10 + (h[v] as int - '0' as int)) % 0x1_0000_0000_0000_0000;
          v := v + 1;
        }
        return Some(cl > 0);
      }
      i := i + 1;
    }
    FindFoldSkips(h, i, "content-length:");
    body := None;
  }

  method ScanHasMessageBody(h: string) returns (body: bool)
    ensures body <==> HasMessageBody(h)
    ensures body <==> AnnouncesBody(h)
  {
    BodyExactly(h);
    var length := ScanContentLength(h);
    if length.Some? {
      return length.value;
    }
    var chunked := FindWord(h, 0, "transfer-encoding:");
    body := chunked.Some?;
  }

  method MatchFixedPath(target: string, wanted: string) returns (r: bool)
    ensures r <==> PathPart(target) == wanted
  {
    var q := FindWord(target, 0, "?");
    var length := if q.Some? then q.value else |target|;
    if length != |wanted| {
      return false;
    }
    r := target[..length] == wanted;
  }

  lemma IsGet(h: string)
    ensures At(h, 0, "GET ") <==> |h| >= 4 && h[0] == 'G' && h[1] == 'E' && h[2] == 'T' && h[3] == ' '
  {
    var word := "GET ";
    if At(h, 0, word) {
      assert h[0 + 0] == word[0] && h[0 + 1] == word[1] && h[0 + 2] == word[2] && h[0 + 3] == word[3];
    }
  }

  method ScanGetHeader(block: string, next: char, path: string) returns (scan: Scan)
    ensures scan == ScanMemory(block, next, path)
  {
    var end := FindHeaderEnd(block, next);
    if end.None? {
      return NeedMore;
    }
    var h := (block + [next])[..end.value];
    IsGet(h);
    if |h| < 16 || h[0] != 'G' || h[1] != 'E' || h[2] != 'T' || h[3] != ' ' {
      return Fallback;
    }
    var body := ScanHasMessageBody(h);
    if body {
      return Fallback;
    }
    var version := FindWord(h, 4, " HTTP/");
    if version.None? || version.value <= 4 {
      return Fallback;
    }
    if path != "" {
      var same := MatchFixedPath(h[4..version.value], path);
      if !same {
        return Fallback;
      }
    }
    var close := ScanConnectionClose(h);
    scan := Found(|h|, close);
  }

  // ------------------------------------------------------------------ the sliding window

  class HttpSession {
    /** The storage of `m_buffer`, `size` characters, and behind it the character that follows it in
        memory. */
    const storage: array<char>
    const size: nat
    var readPos: nat
    var dataLen: nat

    /** What the peer will send and the socket has not delivered yet, and how many characters the next
        socket reads deliver. */
    var incoming: string
    var cuts: seq<nat>
    var open: bool

    ghost predicate Valid()
      reads this
    {
      storage.Length == size + 1 && dataLen <= size && readPos <= dataLen + 1
    }

    /** The session as a value. From a closed one nothing more can be read. */
    ghost function Value(): (w: Window)
      requires Valid()
      reads this, storage
      ensures w.Valid() && w.Size() == size
    {
      Window(storage[..], readPos, dataLen, if open then incoming else "", cuts)
    }

    constructor (size: nat, behind: char, incoming: string, cuts: seq<nat>)
      ensures Valid() && fresh(storage) && this.size == size && open
      ensures Value() == NewWindow(size, behind, incoming, cuts)
    {
      storage := new char[size + 1](i => if i < size then '\0' else behind);
      this.size := size;
      readPos, dataLen := 0, 0;
      this.incoming, this.cuts, open := incoming, cuts, true;
      new;
      assert storage[..] == NewWindow(size, behind, incoming, cuts).memory;
    }

    /** memmove of the unread characters to the front. */
    method MoveToFront()
      requires Valid() && readPos < dataLen
      modifies storage
      ensures storage[..] == old(storage[readPos..dataLen]) + old(storage[..])[dataLen - readPos..]
    {
      var from, n := readPos, dataLen - readPos;
      ghost var was := storage[..];
      for i := 0 to n
        invariant forall k | 0 <= k < i :: storage[k] == was[from + k]
        invariant forall k | i <= k < storage.Length :: storage[k] == was[k]
        modifies storage
      {
        storage[i] := storage[from + i];
      }
      assert storage[..] == was[from..from + n] + was[n..];
    }

    /** compactReadBufferIfNeeded. */
    method CompactReadBufferIfNeeded()
      requires Valid()
      modifies this`readPos, this`dataLen, storage
      ensures Valid() && Value() == Compact(old(Value()))
    {
      if readPos == 0 {
        return;
      }
      if readPos < size / 2 && dataLen < size {
        return;
      }
      if readPos < dataLen {
        MoveToFront();
        dataLen := dataLen - readPos;
      } else {
        dataLen := 0;
      }
      readPos := 0;
    }

    /** The characters of `piece`, stored behind what was read before. */
    method Store(piece: string)
      requires Valid() && dataLen + |piece| <= size
      modifies storage
      ensures storage[..] == Overlay(old(storage[..]), dataLen, piece)
    {
      var at := dataLen;
      ghost var was := storage[..];
      for i := 0 to |piece|
        invariant forall j | 0 <= j < at :: storage[j] == was[j]
        invariant forall j | at <= j < at + i :: storage[j] == piece[j - at]
        invariant forall j | at + i <= j <= size :: storage[j] == was[j]
        modifies storage
      {
        storage[at + i] := piece[i];
      }
      assert storage[..] == was[..at] + piece + was[at + |piece|..] == Overlay(was, at, piece);
    }

    /** One socket read into the free part of the buffer; nothing when nothing is left to come or the
        session is closed. */
    method ReadMore() returns (n: nat)
      requires Valid() && readPos <= dataLen < size
      modifies this`incoming, this`cuts, this`dataLen, storage
      ensures Valid() && (n == 0 <==> old(Value()).incoming == "")
      ensures Value() == if n == 0 then old(Value()) else Fill(old(Value()))
    {
      if !open || incoming == "" {
        return 0;
      }
      var most := if |incoming| < size - dataLen then |incoming| else size - dataLen;
      n := if cuts == [] || cuts[0] > most then most else if cuts[0] == 0 then 1 else cuts[0];
      ghost var w := Value();
      assert n == Taken(w);
      Store(incoming[..n]);
      incoming, cuts, dataLen := incoming[n..], if cuts == [] then [] else cuts[1..], dataLen + n;
    }

    /** The head of the receive loop. A block whose length wraps below zero cannot be scanned. */
    method CompactAndScan(path: string) returns (scan: Option<Scan>)
      requires Valid()
      modifies this`readPos, this`dataLen, storage
      ensures Valid() && Value() == Compact(old(Value()))
      ensures scan == if Value().Steady() then Some(ScanWindow(Value(), path)) else None
    {
      CompactReadBufferIfNeeded();
      if readPos > dataLen {
        return None;
      }
      assert Value().Unread() == storage[readPos..dataLen];
      var found := ScanGetHeader(storage[readPos..dataLen], storage[dataLen], path);
      scan := Some(found);
    }

    /** SocketStream::close. */
    method Close()
      requires Valid()
      modifies this`open
      ensures Valid() && !open && Value() == old(Value()).(incoming := "")
    {
      open := false;
    }

    /** m_readPos += hdr_len. */
    method Consume(length: nat)
      requires Valid() && readPos + length <= dataLen + 1
      modifies this`readPos
      ensures Valid() && Value() == old(Value()).(readPos := old(readPos) + length)
    {
      readPos := readPos + length;
    }

    /** After a scan that needs more: a read, or why there is none. */
    method ReadOrFail() returns (failure: Option<Reply>)
      requires Valid() && readPos <= dataLen
      modifies this`dataLen, this`incoming, this`cuts, this`open, storage
      ensures Valid() && open == (old(open) && failure.None?)
      ensures failure.None? <==> old(dataLen) < size && old(Value()).incoming != ""
      ensures failure.None? ==> Value() == Fill(old(Value()))
      ensures failure.Some? ==>
        && Value() == old(Value()).(incoming := "")
        && failure.value == if dataLen >= size then BufferFull else Ended
    {
      if dataLen >= size {
        Close();
        return Some(BufferFull);
      }
      var n := ReadMore();
      if n == 0 {
        Close();
        return Some(Ended);
      }
      failure := None;
    }

    /** What the loop does with a scan: read on, or return `reply`. */
    method Decide(scan: Scan) returns (reply: Option<Reply>)
      requires Valid() && readPos <= dataLen && (scan.Found? ==> readPos + scan.length <= dataLen + 1)
      modifies this`readPos, this`dataLen, this`incoming, this`cuts, this`open, storage
      ensures Valid() && open == (old(open) && reply != Some(BufferFull) && reply != Some(Ended))
      ensures Decided(old(Value()), scan, reply, Value())
    {
      if scan.NeedMore? {
        reply := ReadOrFail();
        return;
      }
      if scan.Fallback? {
        return Some(Other);
      }
      Consume(scan.length);
      reply := Some(Hit(scan.close));
    }

    /** One turn of the receive loop: it reads on, or returns `reply`. */
    method ReceiveOnce(path: string) returns (reply: Option<Reply>)
      requires Valid()
      modifies this`readPos, this`dataLen, this`incoming, this`cuts, this`open, storage
      ensures Valid() && open == (old(open) && reply != Some(BufferFull) && reply != Some(Ended))
      ensures reply.None? ==> |Value().incoming| < |old(Value()).incoming|
      ensures Receive(old(Value()), path)
           == if reply.None? then Receive(Value(), path) else (reply.value, Value())
    {
      var scan := CompactAndScan(path);
      ghost var c := Value();
      reply := Some(Undefined);
      if scan.Some? {
        reply := Decide(scan.value);
      }
      TurnReceives(old(Value()), path, c, reply, Value());
    }

    /** The loop of recvFixedRouteGet. */
    method ReceiveLoop(path: string) returns (reply: Reply)
      requires Valid()
      modifies this`readPos, this`dataLen, this`incoming, this`cuts, this`open, storage
      ensures Valid() && open == (old(open) && reply != BufferFull && reply != Ended)
      ensures (reply, Value()) == Receive(old(Value()), path)
    {
      ghost var first := Value();
      while true
        invariant Valid() && open == old(open)
        invariant Receive(Value(), path) == Receive(first, path)
        decreases |Value().incoming|
      {
        var turn := ReceiveOnce(path);
        if turn.Some? {
          return turn.value;
        }
      }
    }

    /** recvFixedRouteGet in fast-scan mode. The whole effect of a call is that of `Receive`; it is what
        the stream calls for unless the call is harmed; and `full` reports the return for a buffer with
        no room left, which shares its value with the end of the stream. */
    method RecvFixedRouteGet(path: string) returns (rc: int, clientClose: bool, ghost full: bool)
      requires Valid()
      modifies this`readPos, this`dataLen, this`incoming, this`cuts, this`open, storage
      ensures Valid() && open == (old(open) && rc != -1)
      ensures var (reply, after) := Receive(old(Value()), path);
              && rc == Code(reply) && (reply.Hit? ==> clientClose == reply.close)
              && full == reply.BufferFull? && Value() == after
      ensures old(Value().Steady()) && !Harmed(old(Value()), path) ==>
        && AsTheStreamSays(old(Value().Pending()), size, path, rc, clientClose)
        && (rc >= 0 ==> Value().Steady() && Value().Pending() == Serve(old(Value().Pending()), size, path).1)
      ensures old(Value().Steady()) ==>
        (full <==> !Misled(old(Value()), path) && |old(Value().Pending())| >= size
                   && forall end :: HeaderEnd(old(Value().Pending()), 0) == Some(end) ==> end > size)
    {
      ghost var first := Value();
      var reply := ReceiveLoop(path);
      rc, clientClose, full := Code(reply), reply.Hit? && reply.close, reply.BufferFull?;
      CallPromises(first, path, reply, Value(), clientClose);
    }
  }

  /** The characters up to the first empty line. */
  function FirstHeader(pending: string): string {
    match HeaderEnd(pending, 0)
    case Some(end) => pending[..end]
    case None => pending
  }

  /** The stream begins with a header that fits the buffer and is a hit. */
  ghost predicate ServedByText(pending: string, size: nat, path: string) {
    && HeaderEnd(pending, 0).Some? && HeaderEnd(pending, 0).value <= size
    && IsHit(FirstHeader(pending), path)
  }

  /** The value and the close flag are those of the stream: in particular a hit if and only if it begins
      with a request for the route, to be closed if and only if that asks to. */
  ghost predicate AsTheStreamSays(pending: string, size: nat, path: string, rc: int, close: bool) {
    && rc == Code(Serve(pending, size, path).0)
    && (rc == 1 <==> ServedByText(pending, size, path))
    && (rc == 1 ==> close == AsksToClose(FirstHeader(pending)))
  }

  lemma HitByText(pending: string, size: nat, path: string, close: bool)
    requires Serve(pending, size, path).0.Hit? ==> close == Serve(pending, size, path).0.close
    ensures AsTheStreamSays(pending, size, path, Code(Serve(pending, size, path).0), close)
  {
    ServeOnText(pending, size, path);
  }

  /** What a call of a steady session promises about the stream. */
  lemma CallPromises(w: Window, path: string, reply: Reply, after: Window, close: bool)
    requires w.Valid() && Receive(w, path) == (reply, after) && (reply.Hit? ==> close == reply.close)
    ensures w.Steady() && !Harmed(w, path) ==>
      && AsTheStreamSays(w.Pending(), w.Size(), path, Code(reply), close)
      && (Code(reply) >= 0 ==> after.Steady() && after.Pending() == Serve(w.Pending(), w.Size(), path).1)
    ensures w.Steady() ==>
      (reply.BufferFull? <==>
         !Misled(w, path) && |w.Pending()| >= w.Size()
         && forall end :: HeaderEnd(w.Pending(), 0) == Some(end) ==> end > w.Size())
  {
    if w.Steady() {
      CallExactly(w, path);
      FullExactly(w, path);
      if !Harmed(w, path) {
        CallLeaves(w, path);
        HitByText(w.Pending(), w.Size(), path, close);
      }
    }
  }

  /** The keep-alive loop of the server around the fast path (zero/http/http_server.cc): go on while
      requests hit the route and do not ask to close. */
  method ServeRoute(session: HttpSession, path: string) returns (answers: seq<Seen>)
    requires session.Valid()
    modifies session, session.storage
    ensures answers == SeenOf(Run(old(session.Value()), path))
    ensures old(session.Value().Steady()) && !HarmedRun(old(session.Value()), path)
        ==> answers == Answers(old(session.Value().Pending()), session.size, path)
  {
    answers := [];
    ghost var first := session.Value();
    ghost var all := SeenOf(Run(first, path));
    ghost var tail := all;
    while true
      invariant session.Valid() && first.Size() == session.size
      invariant tail == SeenOf(Run(session.Value(), path)) && all == answers + tail
      decreases session.Value().Left()
    {
      ghost var before := session.Value();
      var rc, close, full := session.RecvFixedRouteGet(path);
      SeenStep(before, path, session.Value());
      if rc < 0 {
        answers := answers + [if rc == -2 then SeenUndefined else SeenFailure];
        break;
      }
      if rc == 0 {
        answers := answers + [SeenOther];
        break;
      }
      if close {
        answers := answers + [SeenHit(true)];
        break;
      }
      tail := SeenOf(Run(session.Value(), path));
      Sequences.Assoc(answers, [SeenHit(false)], tail);
      answers := answers + [SeenHit(false)];
    }
    RunPromises(first, path);
  }

  lemma RunPromises(w: Window, path: string)
    requires w.Valid()
    ensures w.Steady() && !HarmedRun(w, path) ==> SeenOf(Run(w, path)) == Answers(w.Pending(), w.Size(), path)
  {
    if w.Steady() && !HarmedRun(w, path) {
      UnharmedAnswers(w, path);
    }
  }

  lemma SeenStep(w: Window, path: string, after: Window)
    requires w.Valid() && after == Receive(w, path).1
    ensures var seen := Seen1(Receive(w, path).0);
            SeenOf(Run(w, path)) == if seen == SeenHit(false) then [seen] + SeenOf(Run(after, path)) else [seen]
  {
    var e := EntryOf(w, path);
    if e.reply == Hit(false) {
      SeenTurn(w, after, path);
    } else {
      SeenPrepend(e, []);
      assert Run(w, path) == [e] + [];
    }
  }
}
