/** zero/http/http_session.cc, the read window of the fast GET reader as a value: what the buffer holds,
    what the peer will still send, and how many characters each socket read hands over. A connection
    is a function of these, so its runs can be compared with what the stream alone calls for. */
module HttpWindow {
  import opened Options
  import opened HttpScan
  import opened HttpText
  import Sequences

  // ------------------------------------------------------------------ what the stream calls for

  datatype Reply =
    | Hit(close: bool)   // a request for the route; its header is consumed
    | Other              // left for the general parser; nothing is consumed
    | BufferFull         // a header longer than the whole buffer
    | Ended              // the peer has no more to send
    | Undefined          // the block length fell below zero, which C++ does not define

  /** What one call must answer, given everything the peer will ever send: no buffer, no reads. */
  function Serve(pending: string, size: nat, path: string): (Reply, string) {
    match HeaderEnd(pending, 0)
    case Some(end) =>
      if end > size then (BufferFull, pending)
      else
        (match ScanHeader(pending[..end], path)
         case Found(_, close) => (Hit(close), pending[end..])
         case _ => (Other, pending))
    case None => (if |pending| >= size then BufferFull else Ended, pending)
  }

  /** The value the caller gets for an answer. */
  function Code(reply: Reply): int {
    match reply
    case Hit(_) => 1
    case Other => 0
    case Undefined => -2
    case _ => -1
  }

  /** Which streams call for a hit, and for which close flag. */
  lemma ServeOnText(pending: string, size: nat, path: string)
    ensures match HeaderEnd(pending, 0)
            case None => !Serve(pending, size, path).0.Hit?
            case Some(end) =>
              Serve(pending, size, path)
                == if end > size then (BufferFull, pending)
                   else if IsHit(pending[..end], path) then (Hit(AsksToClose(pending[..end])), pending[end..])
                   else (Other, pending)
  {
    match HeaderEnd(pending, 0)
    case Some(end) => ScanExactly(pending[..end], path);
    case None =>
  }

  /** A hit consumes something, so a connection has finitely many. */
  lemma HitConsumes(pending: string, size: nat, path: string)
    requires Serve(pending, size, path).0.Hit?
    ensures |Serve(pending, size, path).1| < |pending|
  {
  }

  /** What the caller of the fast path sees. */
  datatype Seen = SeenHit(close: bool) | SeenOther | SeenFailure | SeenUndefined

  function Seen1(reply: Reply): Seen {
    match reply
    case Hit(close) => SeenHit(close)
    case Other => SeenOther
    case Undefined => SeenUndefined
    case _ => SeenFailure
  }

  /** The answers of one connection, up to the first that is not a hit or that asks to close. */
  function Answers(pending: string, size: nat, path: string): seq<Seen>
    decreases |pending|
  {
    var (reply, rest) := Serve(pending, size, path);
    if reply.Hit? && !reply.close then
      HitConsumes(pending, size, path);
      [Seen1(reply)] + Answers(rest, size, path)
    else [Seen1(reply)]
  }

  // ------------------------------------------------------------------ the window and its steps

  /** `memory` is the buffer and the one character that follows it in memory. A socket read hands over
      `cuts[0]` characters if that many are there and fit; without a cut, all that are there and fit. */
  datatype Window = Window(memory: string, readPos: nat, dataLen: nat, incoming: string, cuts: seq<nat>) {
    predicate Valid() {
      |memory| > 0 && dataLen <= Size() && readPos <= dataLen + 1
    }

    function Size(): nat
      requires |memory| > 0
    {
      |memory| - 1
    }

    /** The block length is not negative. */
    predicate Steady() {
      Valid() && readPos <= dataLen
    }

    function Unread(): string
      requires Steady()
    {
      memory[readPos..dataLen]
    }

    /** Everything the session can still see. */
    function Pending(): string
      requires Steady()
    {
      Unread() + incoming
    }

    /** How many characters are still to be taken, and one more. */
    function Left(): nat
      requires Valid()
    {
      |incoming| + dataLen + 1 - readPos
    }
  }

  /** A session before its first call: zeroed storage, and `behind` whatever follows it in memory. */
  function NewWindow(size: nat, behind: char, stream: string, cuts: seq<nat>): (w: Window)
    ensures w.Steady() && w.Size() == size && w.Pending() == stream
  {
    Window(seq(size, _ => '\0') + [behind], 0, 0, stream, cuts)
  }

  function Compact(w: Window): (c: Window)
    requires w.Valid()
    ensures c.Valid() && |c.memory| == |w.memory| && c.incoming == w.incoming && c.cuts == w.cuts
    ensures w.Steady() ==> c.Steady() && c.Unread() == w.Unread()
    ensures c.Steady() && c.dataLen == c.Size() ==> c.readPos == 0
    ensures c.Steady() ==> c.Left() == w.Left() + if w.Steady() then 0 else 1
  {
    if w.readPos == 0 || (w.readPos < w.Size() / 2 && w.dataLen < w.Size()) then w
    else if w.readPos < w.dataLen then
      var n := w.dataLen - w.readPos;
      var moved := w.memory[w.readPos..w.dataLen] + w.memory[n..];
      assert moved[0..n] == w.memory[w.readPos..w.dataLen];
      w.(memory := moved, readPos := 0, dataLen := n)
    else w.(readPos := 0, dataLen := 0)
  }

  /** How many characters the next read hands over. */
  function Taken(w: Window): (k: nat)
    requires w.Valid() && w.dataLen < w.Size() && w.incoming != ""
    ensures 0 < k <= w.Size() - w.dataLen && k <= |w.incoming|
  {
    var most := if |w.incoming| < w.Size() - w.dataLen then |w.incoming| else w.Size() - w.dataLen;
    if w.cuts == [] || w.cuts[0] > most then most else if w.cuts[0] == 0 then 1 else w.cuts[0]
  }

  /** `piece` stored over the memory from `at` on. */
  function Overlay(memory: string, at: nat, piece: string): string
    requires at + |piece| <= |memory|
  {
    memory[..at] + piece + memory[at + |piece|..]
  }

  function Fill(w: Window): (f: Window)
    requires w.Steady() && w.dataLen < w.Size() && w.incoming != ""
    ensures f.Steady() && |f.memory| == |w.memory| && f.readPos == w.readPos && |f.incoming| < |w.incoming|
    ensures f.dataLen + |f.incoming| == w.dataLen + |w.incoming|
    ensures f.Pending() == w.Pending()
  {
    var k := Taken(w);
    var memory := Overlay(w.memory, w.dataLen, w.incoming[..k]);
    assert memory[w.readPos..w.dataLen + k] == w.Unread() + w.incoming[..k];
    Sequences.Cut(w.incoming, k);
    Sequences.Assoc(w.Unread(), w.incoming[..k], w.incoming[k..]);
    Window(memory, w.readPos, w.dataLen + k, w.incoming[k..], if w.cuts == [] then [] else w.cuts[1..])
  }

  /** The scan of the loop, on the block between the two counters. */
  function ScanWindow(c: Window, path: string): (scan: Scan)
    requires c.Steady()
    ensures scan.Found? ==> 16 <= scan.length && c.readPos + scan.length <= c.dataLen + 1
  {
    ScanBound(c.Unread(), c.memory[c.dataLen], path);
    ScanMemory(c.Unread(), c.memory[c.dataLen], path)
  }

  lemma ScanBound(block: string, next: char, path: string)
    ensures ScanMemory(block, next, path).Found? ==> 16 <= ScanMemory(block, next, path).length <= |block| + 1
  {
  }

  /** The loop reads on. */
  predicate ReadsOn(c: Window, path: string)
    requires c.Steady()
  {
    ScanWindow(c, path).NeedMore? && c.dataLen < c.Size() && c.incoming != ""
  }

  /** What the loop returns for a scan after which it does not read on. A failure closes the session:
      nothing more comes in. */
  function Conclude(c: Window, scan: Scan): (r: (Reply, Window))
    requires c.Steady() && (scan.Found? ==> c.readPos + scan.length <= c.dataLen + 1)
    ensures r.1.Valid() && |r.1.memory| == |c.memory|
  {
    match scan
    case NeedMore => (if c.dataLen >= c.Size() then BufferFull else Ended, c.(incoming := ""))
    case Fallback => (Other, c)
    case Found(length, close) => (Hit(close), c.(readPos := c.readPos + length))
  }

  /** One call of the fast path. */
  function Receive(w: Window, path: string): (r: (Reply, Window))
    requires w.Valid()
    ensures r.1.Valid() && |r.1.memory| == |w.memory|
    ensures r.0.Hit? ==> r.1.Left() + (if w.Steady() then 2 else 1) <= w.Left()
    decreases |w.incoming|
  {
    var c := Compact(w);
    if !c.Steady() then (Undefined, c)
    else if ReadsOn(c, path) then Receive(Fill(c), path)
    else Conclude(c, ScanWindow(c, path))
  }

  /** Some scan of the call takes the character behind its block for the end of a header. */
  predicate Misled(w: Window, path: string)
    requires w.Steady()
    decreases |w.incoming|
  {
    var c := Compact(w);
    Overrun(c.Unread(), c.memory[c.dataLen]) || (ReadsOn(c, path) && Misled(Fill(c), path))
  }

  /** It does, and it matters: the scan reports a hit, or hands a request to the general parser which
      the whole stream would not. */
  predicate Harmed(w: Window, path: string)
    requires w.Steady()
    decreases |w.incoming|
  {
    var c := Compact(w);
    if Overrun(c.Unread(), c.memory[c.dataLen]) then
      ScanWindow(c, path).Found? || !Serve(c.Pending(), c.Size(), path).0.Other?
    else ReadsOn(c, path) && Harmed(Fill(c), path)
  }

  // ------------------------------------------------------------------ one call

  lemma OverrunLength(block: string, next: char, path: string)
    requires Overrun(block, next)
    ensures !ScanMemory(block, next, path).NeedMore?
    ensures ScanMemory(block, next, path).Found? ==> ScanMemory(block, next, path).length == |block| + 1
  {
    EndBehind(block, next);
  }

  /** How much of the answer the characters seen so far decide. */
  lemma ServeSeen(block: string, more: string, size: nat, path: string)
    requires |block| <= size
    ensures match ScanBlock(block, path)
            case Found(length, close) =>
              length <= |block| && Serve(block + more, size, path) == (Hit(close), block[length..] + more)
            case Fallback => Serve(block + more, size, path) == (Other, block + more)
            case NeedMore =>
              && (|block| == size ==> Serve(block + more, size, path) == (BufferFull, block + more))
              && (|block| < size && more == "" ==> Serve(block + more, size, path) == (Ended, block + more))
  {
    EndStays(block, more);
    match HeaderEnd(block, 0)
    case Some(end) =>
      assert (block + more)[..end] == block[..end];
      assert (block + more)[end..] == block[end..] + more;
    case None =>
      Sequences.Empty(block);
  }

  /** The answer, and what a call that answers leaves to the next. */
  datatype Entry = Entry(reply: Reply, left: Option<string>)

  function Observed(reply: Reply, after: Window): Entry {
    Entry(reply, if (reply.Hit? || reply.Other?) && after.Steady() then Some(after.Pending()) else None)
  }

  function Wanted(reply: Reply, rest: string): Entry {
    Entry(reply, if reply.Hit? || reply.Other? then Some(rest) else None)
  }

  function EntryOf(w: Window, path: string): Entry
    requires w.Valid()
  {
    var (reply, after) := Receive(w, path);
    Observed(reply, after)
  }

  function ServeEntry(pending: string, size: nat, path: string): Entry {
    var (reply, rest) := Serve(pending, size, path);
    Wanted(reply, rest)
  }

  /** What the intended scan of a block makes of a call that does not read on. */
  function Verdict(scan: Scan, block: string, more: string, size: nat): Entry {
    match scan
    case NeedMore => Entry(if |block| >= size then BufferFull else Ended, None)
    case Fallback => Entry(Other, Some(block + more))
    case Found(length, close) => Entry(Hit(close), Some((if length <= |block| then block[length..] else "") + more))
  }

  lemma VerdictServes(block: string, more: string, size: nat, path: string)
    requires |block| <= size
    requires ScanBlock(block, path).NeedMore? && |block| < size ==> more == ""
    ensures Verdict(ScanBlock(block, path), block, more, size) == ServeEntry(block + more, size, path)
  {
    ServeSeen(block, more, size, path);
  }

  function Concluded(c: Window, scan: Scan): Entry
    requires c.Steady() && (scan.Found? ==> c.readPos + scan.length <= c.dataLen + 1)
  {
    var (reply, after) := Conclude(c, scan);
    Observed(reply, after)
  }

  lemma ConcludeVerdict(c: Window, scan: Scan)
    requires c.Steady() && (c.dataLen == c.Size() ==> c.readPos == 0)
    requires scan.Found? ==> scan.length <= |c.Unread()|
    ensures Concluded(c, scan) == Verdict(scan, c.Unread(), c.incoming, c.Size())
  {
    if scan.Found? {
      assert c.memory[c.readPos + scan.length..c.dataLen] == c.Unread()[scan.length..];
    }
  }

  lemma BlockBound(block: string, path: string)
    ensures ScanBlock(block, path).Found? ==> ScanBlock(block, path).length <= |block|
  {
  }

  lemma ConcludeSound(c: Window, path: string)
    requires c.Steady() && !ReadsOn(c, path) && (c.dataLen == c.Size() ==> c.readPos == 0)
    requires !Overrun(c.Unread(), c.memory[c.dataLen])
    ensures Concluded(c, ScanWindow(c, path)) == ServeEntry(c.Pending(), c.Size(), path)
  {
    ScanAsIntended(c.Unread(), c.memory[c.dataLen], path);
    BlockBound(c.Unread(), path);
    ConcludeVerdict(c, ScanBlock(c.Unread(), path));
    VerdictServes(c.Unread(), c.incoming, c.Size(), path);
  }

  lemma ConcludeMisled(c: Window, path: string)
    requires c.Steady() && Overrun(c.Unread(), c.memory[c.dataLen])
    ensures !ReadsOn(c, path)
    ensures Concluded(c, ScanWindow(c, path)) == ServeEntry(c.Pending(), c.Size(), path)
       <==> !ScanWindow(c, path).Found? && Serve(c.Pending(), c.Size(), path).0.Other?
  {
    OverrunLength(c.Unread(), c.memory[c.dataLen], path);
    OtherKeepsAll(c.Pending(), c.Size(), path);
  }

  lemma OtherKeepsAll(pending: string, size: nat, path: string)
    ensures Serve(pending, size, path).0.Other? ==> Serve(pending, size, path).1 == pending
    ensures !Serve(pending, size, path).0.Undefined?
  {
  }

  /** What the loop does with a scan: it reads on, or returns `reply`. */
  predicate Decided(c: Window, scan: Scan, reply: Option<Reply>, after: Window)
    requires c.Steady() && (scan.Found? ==> c.readPos + scan.length <= c.dataLen + 1)
  {
    if scan.NeedMore? && c.dataLen < c.Size() && c.incoming != "" then reply == None && after == Fill(c)
    else reply.Some? && (reply.value, after) == Conclude(c, scan)
  }

  lemma TurnReceives(w: Window, path: string, c: Window, reply: Option<Reply>, after: Window)
    requires w.Valid() && c == Compact(w)
    requires if c.Steady() then Decided(c, ScanWindow(c, path), reply, after) else reply == Some(Undefined) && after == c
    ensures after.Valid() && (reply.None? ==> |after.incoming| < |w.incoming|)
    ensures Receive(w, path) == if reply.None? then Receive(after, path) else (reply.value, after)
  {
  }

  lemma EntryTurn(w: Window, path: string, c: Window)
    requires w.Steady() && c == Compact(w)
    ensures EntryOf(w, path) == if ReadsOn(c, path) then EntryOf(Fill(c), path) else Concluded(c, ScanWindow(c, path))
  {
  }

  /** The call does what the stream calls for: it answers that, and leaves that to the next call. */
  predicate AsCalledFor(w: Window, path: string)
    requires w.Steady()
  {
    EntryOf(w, path) == ServeEntry(w.Pending(), w.Size(), path)
  }

  lemma ReadsOnSame(w: Window, path: string, c: Window, f: Window)
    requires w.Steady() && c == Compact(w) && ReadsOn(c, path) && f == Fill(c)
    ensures AsCalledFor(w, path) == AsCalledFor(f, path)
  {
    EntryTurn(w, path, c);
    FillKeeps(c);
    SameServe(w.Pending(), f.Pending(), w.Size(), f.Size(), path);
  }

  lemma SameServe(p: string, q: string, m: nat, n: nat, path: string)
    requires p == q && m == n
    ensures ServeEntry(p, m, path) == ServeEntry(q, n, path)
  {
  }

  lemma FillKeeps(c: Window)
    requires c.Steady() && c.dataLen < c.Size() && c.incoming != ""
    ensures Fill(c).Pending() == c.Pending() && Fill(c).Size() == c.Size()
  {
  }

  lemma StopsHere(w: Window, path: string, c: Window)
    requires w.Steady() && c == Compact(w) && !ReadsOn(c, path)
    ensures AsCalledFor(w, path) <==> Concluded(c, ScanWindow(c, path)) == ServeEntry(c.Pending(), c.Size(), path)
  {
    EntryTurn(w, path, c);
    assert c.Pending() == w.Pending();
  }

  /** Exactly when a call does what the stream calls for. */
  lemma {:induction false} CallExactly(w: Window, path: string)
    requires w.Steady()
    ensures AsCalledFor(w, path) <==> !Harmed(w, path)
    decreases |w.incoming|
  {
    var c := Compact(w);
    if Overrun(c.Unread(), c.memory[c.dataLen]) {
      ConcludeMisled(c, path);
      StopsHere(w, path, c);
    } else if ReadsOn(c, path) {
      ReadsOnSame(w, path, c, Fill(c));
      CallExactly(Fill(c), path);
    } else {
      ConcludeSound(c, path);
      StopsHere(w, path, c);
    }
  }

  lemma {:induction false} UnmisledUnharmed(w: Window, path: string)
    requires w.Steady() && !Misled(w, path)
    ensures !Harmed(w, path)
    decreases |w.incoming|
  {
    var c := Compact(w);
    if ReadsOn(c, path) {
      UnmisledUnharmed(Fill(c), path);
    }
  }

  /** The next header, complete or not, is longer than the whole buffer. */
  ghost predicate Oversized(pending: string, size: nat) {
    |pending| >= size && forall end :: HeaderEnd(pending, 0) == Some(end) ==> end > size
  }

  lemma OversizedServed(pending: string, size: nat, path: string)
    ensures Serve(pending, size, path).0.BufferFull? <==> Oversized(pending, size)
  {
  }

  lemma {:induction false} FullUnmisled(w: Window, path: string)
    requires w.Steady() && Receive(w, path).0.BufferFull?
    ensures !Misled(w, path)
    decreases |w.incoming|
  {
    var c := Compact(w);
    EntryTurn(w, path, c);
    if Overrun(c.Unread(), c.memory[c.dataLen]) {
      OverrunLength(c.Unread(), c.memory[c.dataLen], path);
    } else if ReadsOn(c, path) {
      FullUnmisled(Fill(c), path);
    }
  }

  /** Exactly when a call fails for a full buffer. */
  lemma FullExactly(w: Window, path: string)
    requires w.Steady()
    ensures Receive(w, path).0.BufferFull? <==> !Misled(w, path) && Oversized(w.Pending(), w.Size())
  {
    OversizedServed(w.Pending(), w.Size(), path);
    if Receive(w, path).0.BufferFull? {
      FullUnmisled(w, path);
    }
    if !Misled(w, path) {
      UnmisledUnharmed(w, path);
      CallExactly(w, path);
      SameReply(w, path);
    }
  }

  /** What a call that does what the stream calls for answers and leaves. */
  lemma CallLeaves(w: Window, path: string)
    requires w.Steady() && AsCalledFor(w, path)
    ensures var (reply, after) := Receive(w, path);
            var (wanted, rest) := Serve(w.Pending(), w.Size(), path);
            reply == wanted && (Code(reply) >= 0 ==> after.Steady() && after.Pending() == rest)
  {
  }

  lemma SameReply(w: Window, path: string)
    requires w.Steady() && AsCalledFor(w, path)
    ensures Receive(w, path).0 == Serve(w.Pending(), w.Size(), path).0
  {
  }

  // ------------------------------------------------------------------ a whole connection

  /** The calls of one connection: go on while requests hit the route and do not ask to close. */
  function Run(w: Window, path: string): (run: seq<Entry>)
    requires w.Valid()
    ensures |run| > 0 && run[0] == EntryOf(w, path)
    decreases w.Left()
  {
    var (reply, after) := Receive(w, path);
    if reply == Hit(false) then [EntryOf(w, path)] + Run(after, path) else [EntryOf(w, path)]
  }

  /** The calls the stream calls for. */
  function WantedRun(pending: string, size: nat, path: string): (run: seq<Entry>)
    ensures |run| > 0 && run[0] == ServeEntry(pending, size, path)
    decreases |pending|
  {
    var (reply, rest) := Serve(pending, size, path);
    if reply == Hit(false) then
      HitConsumes(pending, size, path);
      [ServeEntry(pending, size, path)] + WantedRun(rest, size, path)
    else [ServeEntry(pending, size, path)]
  }

  /** Some call of the connection is harmed. */
  predicate HarmedRun(w: Window, path: string)
    requires w.Steady()
    decreases w.Left()
  {
    var (reply, after) := Receive(w, path);
    Harmed(w, path) || (reply == Hit(false) && after.Steady() && HarmedRun(after, path))
  }

  lemma HitLeaves(w: Window, path: string)
    requires w.Steady() && EntryOf(w, path) == ServeEntry(w.Pending(), w.Size(), path)
    ensures var (reply, after) := Receive(w, path); var (wanted, rest) := Serve(w.Pending(), w.Size(), path);
            reply == wanted && (reply.Hit? ==> after.Steady() && after.Pending() == rest)
  {
  }

  lemma PrependSame<T>(a: seq<T>, b: seq<T>, c: seq<T>)
    requires a + b == a + c
    ensures b == c
  {
    Sequences.Split(a, b);
    Sequences.Split(a, c);
  }

  lemma PrependDiffers<T>(x: T, a: seq<T>, y: T, b: seq<T>)
    ensures [x] + a == [y] + b <==> x == y && a == b
  {
    if [x] + a == [y] + b {
      assert ([x] + a)[0] == ([y] + b)[0];
      PrependSame([x], a, b);
    }
  }

  /** The calls after one that does what the stream calls for. */
  lemma RunGoesOn(w: Window, path: string, after: Window, pending: string, size: nat)
    requires w.Steady() && AsCalledFor(w, path) && Receive(w, path) == (Hit(false), after)
    requires pending == w.Pending() && size == w.Size() && after.Steady()
    ensures after.Pending() == Serve(pending, size, path).1 && after.Size() == size
    ensures Run(w, path) == WantedRun(pending, size, path)
       <==> Run(after, path) == WantedRun(after.Pending(), size, path)
  {
    HitLeaves(w, path);
    var e := EntryOf(w, path);
    HitConsumes(pending, size, path);
    PrependDiffers(e, Run(after, path), e, WantedRun(after.Pending(), size, path));
  }

  lemma RunFails(w: Window, path: string)
    requires w.Steady() && !AsCalledFor(w, path)
    ensures Run(w, path) != WantedRun(w.Pending(), w.Size(), path)
  {
  }

  lemma RunStops(w: Window, path: string)
    requires w.Steady() && AsCalledFor(w, path) && Receive(w, path).0 != Hit(false)
    ensures Run(w, path) == WantedRun(w.Pending(), w.Size(), path)
  {
    HitLeaves(w, path);
  }

  /** Exactly when a connection does, call by call, what its stream calls for. */
  lemma {:induction false} RunExactly(w: Window, path: string)
    requires w.Steady()
    ensures Run(w, path) == WantedRun(w.Pending(), w.Size(), path) <==> !HarmedRun(w, path)
    decreases w.Left()
  {
    CallExactly(w, path);
    if Harmed(w, path) {
      RunFails(w, path);
    } else {
      HitLeaves(w, path);
      var (reply, after) := Receive(w, path);
      if reply == Hit(false) {
        RunExactly(after, path);
        RunGoesOn(w, path, after, w.Pending(), w.Size());
      } else {
        RunStops(w, path);
      }
    }
  }

  /** What the server sees of a run. */
  function SeenOf(run: seq<Entry>): seq<Seen> {
    if run == [] then [] else [Seen1(run[0].reply)] + SeenOf(run[1..])
  }

  lemma SeenPrepend(e: Entry, run: seq<Entry>)
    ensures SeenOf([e] + run) == [Seen1(e.reply)] + SeenOf(run)
  {
    Sequences.Split([e], run);
  }

  lemma {:induction false} AnswersOfRun(pending: string, size: nat, path: string)
    ensures SeenOf(WantedRun(pending, size, path)) == Answers(pending, size, path)
    decreases |pending|
  {
    var (reply, rest) := Serve(pending, size, path);
    var e := ServeEntry(pending, size, path);
    if reply == Hit(false) {
      HitConsumes(pending, size, path);
      AnswersOfRun(rest, size, path);
      SeenPrepend(e, WantedRun(rest, size, path));
    } else {
      assert SeenOf([e]) == [Seen1(reply)];
    }
  }

  /** A connection of which no call is harmed answers as its stream calls for. */
  lemma UnharmedAnswers(w: Window, path: string)
    requires w.Steady() && !HarmedRun(w, path)
    ensures SeenOf(Run(w, path)) == Answers(w.Pending(), w.Size(), path)
  {
    RunExactly(w, path);
    AnswersOfRun(w.Pending(), w.Size(), path);
  }

  // ------------------------------------------------------------------ connections that are safe for every cut

  /** No LF lies in the buffer behind what was read, and what is still to come fits behind it. */
  predicate Clear(w: Window, total: nat) {
    && w.Steady() && w.dataLen + |w.incoming| == total < w.Size()
    && forall i | w.dataLen <= i < w.Size() :: w.memory[i] != '\n'
  }

  lemma ClearFill(w: Window, total: nat)
    requires Clear(w, total) && w.incoming != ""
    ensures Clear(Fill(w), total)
  {
    var k := Taken(w);
    var f := Fill(w);
    forall i | f.dataLen <= i < f.Size()
      ensures f.memory[i] == w.memory[i]
    {
      assert f.memory == w.memory[..w.dataLen] + w.incoming[..k] + w.memory[w.dataLen + k..];
    }
  }

  lemma ClearScan(w: Window, total: nat)
    requires Clear(w, total)
    ensures !Overrun(w.Unread(), w.memory[w.dataLen])
  {
  }

  lemma {:induction false} ClearCall(w: Window, path: string, total: nat)
    requires Clear(w, total) && w.readPos < w.Size() / 2
    ensures !Misled(w, path) && !Harmed(w, path)
    ensures Receive(w, path).0.Hit? && Receive(w, path).1.Steady() ==> Clear(Receive(w, path).1, total)
    decreases |w.incoming|
  {
    ClearScan(w, total);
    if ReadsOn(w, path) {
      ClearFill(w, total);
      ClearCall(Fill(w), path, total);
    }
  }

  /** How many characters the hits of a connection consume. */
  function Consumed(pending: string, size: nat, path: string): nat
    decreases |pending|
  {
    var (reply, rest) := Serve(pending, size, path);
    if reply == Hit(false) then
      HitConsumes(pending, size, path);
      |pending| - |rest| + Consumed(rest, size, path)
    else 0
  }

  lemma ConsumedTurn(pending: string, size: nat, path: string, rest: string)
    requires Serve(pending, size, path) == (Hit(false), rest)
    ensures |rest| < |pending|
    ensures Consumed(pending, size, path) == |pending| - |rest| + Consumed(rest, size, path)
  {
    HitConsumes(pending, size, path);
  }

  lemma ClearNext(w: Window, path: string, total: nat, after: Window)
    requires Clear(w, total) && w.readPos < w.Size() / 2 && Receive(w, path) == (Hit(false), after)
    ensures Clear(after, total) && after.Size() == w.Size()
    ensures after.readPos + Consumed(after.Pending(), after.Size(), path)
         == w.readPos + Consumed(w.Pending(), w.Size(), path)
  {
    ClearCall(w, path, total);
    CallExactly(w, path);
    HitLeaves(w, path);
    ConsumedTurn(w.Pending(), w.Size(), path, after.Pending());
  }

  lemma {:induction false} ClearRun(w: Window, path: string, total: nat)
    requires Clear(w, total) && w.readPos + Consumed(w.Pending(), w.Size(), path) < w.Size() / 2
    ensures !HarmedRun(w, path)
    decreases w.Left()
  {
    ClearCall(w, path, total);
    var (reply, after) := Receive(w, path);
    if reply == Hit(false) {
      ClearNext(w, path, total, after);
      ClearRun(after, path, total);
    }
  }

  /** Whatever lies behind the buffer and however the reads cut the stream: a stream shorter than the
      buffer, whose hits end in the first half of it, is answered as it calls for. */
  lemma ShortStreams(size: nat, behind: char, stream: string, cuts: seq<nat>, path: string)
    requires |stream| < size && Consumed(stream, size, path) < size / 2
    ensures !HarmedRun(NewWindow(size, behind, stream, cuts), path)
    ensures SeenOf(Run(NewWindow(size, behind, stream, cuts), path)) == Answers(stream, size, path)
  {
    var w := NewWindow(size, behind, stream, cuts);
    ClearRun(w, path, |stream|);
    UnharmedAnswers(w, path);
  }

  /** Complete headers, each short enough for the room that compaction leaves. */
  predicate Whole(headers: seq<string>, size: nat) {
    forall i | 0 <= i < |headers| ::
      HeaderEnd(headers[i], 0) == Some(|headers[i]|) && |headers[i]| <= size - size / 2
  }

  function Joined(headers: seq<string>): string {
    if headers == [] then "" else headers[0] + Joined(headers[1..])
  }

  function Lengths(headers: seq<string>): seq<nat> {
    if headers == [] then [] else [|headers[0]|] + Lengths(headers[1..])
  }

  /** Between two calls: what was read is consumed, and the next reads bring `headers` one by one. */
  predicate Between(w: Window, headers: seq<string>) {
    w.Steady() && w.readPos == w.dataLen && w.incoming == Joined(headers) && w.cuts == Lengths(headers)
  }

  /** The read that brings the next header. */
  lemma WholeRead(w: Window, headers: seq<string>, c: Window, h: string)
    requires Between(w, headers) && Whole(headers, w.Size()) && headers != [] && h == headers[0]
    requires c == Compact(w)
    ensures c.Unread() == "" && c.dataLen < c.Size() && c.incoming != ""
    ensures Fill(c).Unread() == h && Fill(c).incoming == Joined(headers[1..]) && Fill(c).cuts == Lengths(headers[1..])
  {
    var rest := Joined(headers[1..]);
    assert c.incoming == h + rest;
    Sequences.Split(h, rest);
    assert c.dataLen < c.Size() && |h| <= c.Size() - c.dataLen;
    assert c.cuts[0] == |h| && c.cuts[1..] == Lengths(headers[1..]);
    assert Taken(c) == |h|;
    assert Fill(c).memory[c.readPos..c.dataLen + |h|] == h;
  }

  /** The scan of a block that is one complete header. */
  lemma WholeScan(c: Window, path: string, h: string)
    requires c.Steady() && c.Unread() == h && HeaderEnd(h, 0) == Some(|h|)
    ensures !Overrun(h, c.memory[c.dataLen])
    ensures !ScanWindow(c, path).NeedMore?
    ensures ScanWindow(c, path).Found? ==> ScanWindow(c, path).length == |h|
  {
    ScanAsIntended(h, c.memory[c.dataLen], path);
    assert h[..|h|] == h;
  }

  /** A call that reads once: the block before the read is empty, the one behind it decides. */
  lemma OneRead(w: Window, path: string, c: Window, d: Window)
    requires w.Valid() && c == Compact(w) && c.Steady() && c.Unread() == ""
    requires c.dataLen < c.Size() && c.incoming != "" && d == Compact(Fill(c)) && !ReadsOn(d, path)
    ensures Receive(w, path) == Conclude(d, ScanWindow(d, path))
    ensures w.Steady() ==> (Harmed(w, path) <==> Harmed(Fill(c), path))
  {
    assert ScanWindow(c, path).NeedMore?;
    assert Receive(w, path) == Receive(Fill(c), path);
  }

  lemma WholeCall(w: Window, path: string, headers: seq<string>, after: Window)
    requires Between(w, headers) && Whole(headers, w.Size()) && headers != []
    requires after == Receive(w, path).1
    ensures !Harmed(w, path)
    ensures Receive(w, path).0.Hit? ==> Between(after, headers[1..]) && after.Size() == w.Size()
  {
    var c := Compact(w);
    WholeRead(w, headers, c, headers[0]);
    var d := Compact(Fill(c));
    WholeScan(d, path, headers[0]);
    OneRead(w, path, c, d);
  }

  lemma NothingLeft(w: Window, path: string)
    requires Between(w, [])
    ensures !Harmed(w, path) && !Receive(w, path).0.Hit?
  {
    assert Compact(w).Unread() == "";
  }

  lemma {:induction false} WholeRun(w: Window, path: string, headers: seq<string>)
    requires Between(w, headers) && Whole(headers, w.Size()) && w.Size() > 0
    ensures !HarmedRun(w, path)
    decreases |headers|
  {
    if headers == [] {
      NothingLeft(w, path);
    } else {
      var (reply, after) := Receive(w, path);
      WholeCall(w, path, headers, after);
      if reply == Hit(false) {
        WholeRun(after, path, headers[1..]);
      }
    }
  }

  /** Whatever lies behind the buffer and however long the connection lasts: requests that arrive one
      by one, each whole in one read, are answered as they call for. */
  lemma WholeRequests(size: nat, behind: char, headers: seq<string>, path: string)
    requires size > 0 && Whole(headers, size)
    ensures !HarmedRun(NewWindow(size, behind, Joined(headers), Lengths(headers)), path)
    ensures SeenOf(Run(NewWindow(size, behind, Joined(headers), Lengths(headers)), path))
         == Answers(Joined(headers), size, path)
  {
    var w := NewWindow(size, behind, Joined(headers), Lengths(headers));
    WholeRun(w, path, headers);
    UnharmedAnswers(w, path);
  }

  // ------------------------------------------------------------------ connections that are not

  /** A request for the route that does not ask to close. */
  predicate Request(h: string, path: string) {
    HeaderEnd(h, 0) == Some(|h|) && ScanHeader(h, path) == Found(|h|, false)
  }

  lemma RequestServed(h: string, more: string, size: nat, path: string)
    requires Request(h, path) && |h| <= size
    ensures Serve(h + more, size, path) == (Hit(false), more)
  {
    assert h[..|h|] == h;
    ServeSeen(h, more, size, path);
    Sequences.Empty(more);
  }

  /** The window at rest behind `h`, which it still holds. */
  predicate Holds(w: Window, h: string) {
    w.Valid() && |h| < w.Size() && w.memory[..|h|] == h && w.readPos == |h|
  }

  /** A read that brings all of a request, to the front of the buffer. */
  lemma WholeAtFront(w: Window, h: string, more: string, f: Window)
    requires w.Steady() && w.readPos == w.dataLen == 0 && h != "" && |h| < w.Size()
    requires w.incoming == h + more && w.cuts != [] && w.cuts[0] == |h|
    requires f == Fill(w)
    ensures f == Window(f.memory, 0, |h|, more, w.cuts[1..]) && f.memory[..|h|] == h && f.Unread() == h
  {
    Sequences.Split(h, more);
    assert Taken(w) == |h|;
    assert f.memory == h + w.memory[|h|..];
  }

  lemma FirstOfThree(w: Window, h: string, path: string, after: Window)
    requires Request(h, path) && w.Valid() && |h| < w.Size()
    requires w.readPos == w.dataLen == 0 && w.incoming == h + (h + h) && w.cuts == [|h|, |h| - 1]
    requires after == Receive(w, path).1
    ensures Receive(w, path).0 == Hit(false)
    ensures Holds(after, h) && after.dataLen == |h| && after.incoming == h + h && after.cuts == [|h| - 1]
    ensures after.Size() == w.Size()
  {
    var f := Fill(w);
    WholeAtFront(w, h, h + h, f);
    RequestScan(f, path, h);
    OneRead(w, path, w, f);
  }

  lemma RequestScan(c: Window, path: string, h: string)
    requires c.Steady() && c.Unread() == h && Request(h, path)
    ensures ScanWindow(c, path) == Found(|h|, false)
  {
    ScanAsIntended(h, c.memory[c.dataLen], path);
    assert h[..|h|] == h;
  }

  lemma SecondOfThree(w: Window, h: string, path: string, after: Window)
    requires Request(h, path) && Holds(w, h) && w.Size() / 2 <= |h|
    requires w.dataLen == |h| && w.incoming == h + h && w.cuts == [|h| - 1]
    requires after == Receive(w, path).1
    ensures Harmed(w, path)
    ensures Receive(w, path).0 == Hit(false)
    ensures Holds(after, h) && after.dataLen == |h| - 1 && after.incoming == ['\n'] + h && after.cuts == []
    ensures after.Size() == w.Size()
  {
    var c := Compact(w);
    assert c.Unread() == "" && c.memory == w.memory;
    var f := Fill(c);
    CutBeforeLast(c, h, |h| - 1);
    assert EmptyLineAt(h, |h| - 4);
    EveryHeaderCanOverrun(h, path);
    LastFeedOverrun(h);
    assert Compact(f) == f;
    assert ScanWindow(f, path) == Found(|h|, false);
    OneRead(w, path, Compact(w), f);
  }

  /** A copy of all but the last character of `h`, put over an earlier `h`. */
  lemma CopyAgain(memory: string, h: string)
    requires h != "" && |h| <= |memory| && memory[..|h|] == h
    ensures (h + h)[..|h| - 1] == h[..|h| - 1] && (h + h)[|h| - 1..] == [h[|h| - 1]] + h
    ensures h[..|h| - 1] + memory[|h| - 1..] == memory
  {
    assert memory[|h| - 1..] == [h[|h| - 1]] + memory[|h|..];
  }

  /** The read that stops before the last character of `h`, in a buffer that holds an earlier `h`. */
  lemma CutBeforeLast(c: Window, h: string, n: nat)
    requires c.Steady() && |h| == n + 1 < c.Size() && n > 0 && c.memory[..|h|] == h
    requires c.readPos == c.dataLen == 0 && c.incoming == h + h && c.cuts == [n]
    ensures Fill(c) == Window(c.memory, 0, n, [h[n]] + h, [])
    ensures Fill(c).Unread() == h[..n]
  {
    CopyAgain(c.memory, h);
    assert Taken(c) == n;
    assert Fill(c).memory == [] + h[..n] + c.memory[n..];
    Sequences.Empty(h[..n]);
  }

  lemma LastFeedOverrun(h: string)
    requires HeaderEnd(h, 0) == Some(|h|) && |h| >= 5
    ensures Overrun(h[..|h| - 1], '\n')
  {
    var block := h[..|h| - 1];
    assert block + ['\n'] == h;
    EndStays(block, ['\n']);
  }

  lemma LineFeedFirst(h: string, path: string)
    requires HeaderEnd(h, 0) == Some(|h|) && |h| >= 5
    ensures ScanBlock(['\n'] + h, path) == Fallback
  {
    var s := ['\n'] + h;
    forall k | 0 <= k < |s| - 4
      ensures !EmptyLineAt(s, k)
    {
      if k > 0 && EmptyLineAt(s, k) {
        assert EmptyLineAt(h, k - 1);
      }
    }
    assert EmptyLineAt(h, |h| - 4);
    EndUnique(s, |s|);
    assert s[..|s|] == s;
    assert s[0] != "GET "[0];
  }

  lemma ThirdOfThree(w: Window, h: string, path: string)
    requires Request(h, path) && Holds(w, h) && w.Size() / 2 <= |h|
    requires w.dataLen == |h| - 1 && w.incoming == ['\n'] + h && w.cuts == []
    ensures Receive(w, path).0 == Other
  {
    var c := Compact(w);
    assert c.Unread() == "";
    var f := Fill(c);
    assert f.Unread() == ['\n'] + h;
    LineFeedFirst(h, path);
    BlockStays(['\n'] + h, f.memory[f.dataLen], path);
    OneRead(w, path, Compact(w), f);
  }

  lemma BlockStays(block: string, next: char, path: string)
    requires !ScanBlock(block, path).NeedMore?
    ensures ScanMemory(block, next, path) == ScanBlock(block, path)
  {
    ScanAsIntended(block, next, path);
  }

  function Thrice(h: string): string {
    h + (h + h)
  }

  lemma ThriceAnswers(h: string, size: nat, path: string)
    requires Request(h, path) && |h| <= size && size > 0
    ensures Answers(Thrice(h), size, path) == [SeenHit(false), SeenHit(false), SeenHit(false), SeenFailure]
  {
    AnswersTurn(h, h + h, size, path);
    AnswersTurn(h, h, size, path);
    AnswersTurn(h, "", size, path);
    Sequences.Empty(h);
    NoAnswer(size, path);
    FourAnswers(Answers(h + h, size, path), Answers(h, size, path));
  }

  lemma FourAnswers(two: seq<Seen>, one: seq<Seen>)
    requires two == [SeenHit(false)] + one && one == [SeenHit(false)] + [SeenFailure]
    ensures [SeenHit(false)] + two == [SeenHit(false), SeenHit(false), SeenHit(false), SeenFailure]
  {
  }

  lemma NoAnswer(size: nat, path: string)
    requires size > 0
    ensures Answers("", size, path) == [SeenFailure]
  {
  }

  lemma AnswersTurn(h: string, more: string, size: nat, path: string)
    requires Request(h, path) && |h| <= size
    ensures Answers(h + more, size, path) == [SeenHit(false)] + Answers(more, size, path)
  {
    RequestServed(h, more, size, path);
    HitConsumes(h + more, size, path);
  }

  /** Every request for the route that is at least half as long as the buffer, and fits it, is harmed in
      some connection: sent three times, with the second read ending before its last LF. Compaction has
      left the LF of the first request just there, the second is answered early, and what is left of it
      makes the third unreadable. */
  lemma StaleLineFeed(h: string, size: nat, behind: char, path: string)
    requires Request(h, path) && size / 2 <= |h| < size
    ensures var w := NewWindow(size, behind, Thrice(h), [|h|, |h| - 1]);
            && HarmedRun(w, path)
            && SeenOf(Run(w, path)) == [SeenHit(false), SeenHit(false), SeenOther]
            && Answers(Thrice(h), size, path) == [SeenHit(false), SeenHit(false), SeenHit(false), SeenFailure]
  {
    var w0 := NewWindow(size, behind, Thrice(h), [|h|, |h| - 1]);
    AllThree(w0, h, path);
    ThriceAnswers(h, size, path);
  }

  lemma AllThree(w: Window, h: string, path: string)
    requires Request(h, path) && w.Valid() && w.Size() / 2 <= |h| < w.Size()
    requires w.readPos == w.dataLen == 0 && w.incoming == h + (h + h) && w.cuts == [|h|, |h| - 1]
    ensures HarmedRun(w, path) && SeenOf(Run(w, path)) == [SeenHit(false), SeenHit(false), SeenOther]
  {
    var after := Receive(w, path).1;
    FirstOfThree(w, h, path, after);
    LastTwo(after, h, path);
    SeenTurn(w, after, path);
  }

  lemma LastTwo(w: Window, h: string, path: string)
    requires Request(h, path) && Holds(w, h) && w.Size() / 2 <= |h|
    requires w.dataLen == |h| && w.incoming == h + h && w.cuts == [|h| - 1]
    ensures HarmedRun(w, path) && SeenOf(Run(w, path)) == [SeenHit(false), SeenOther]
  {
    var after := Receive(w, path).1;
    SecondOfThree(w, h, path, after);
    ThirdOfThree(after, h, path);
    SeenTurn(w, after, path);
    SeenPrepend(EntryOf(after, path), []);
    assert Run(after, path) == [EntryOf(after, path)] + [];
  }

  lemma SeenTurn(w: Window, after: Window, path: string)
    requires w.Valid() && Receive(w, path) == (Hit(false), after)
    ensures SeenOf(Run(w, path)) == [SeenHit(false)] + SeenOf(Run(after, path))
  {
    SeenPrepend(EntryOf(w, path), Run(after, path));
  }

  /** Words whose first character does not occur. */
  lemma NoWord(h: string, i: nat, word: string)
    requires word != "" && forall k | 0 <= k < |h| :: h[k] != word[0]
    ensures Find(h, i, word) == None
  {
  }

  lemma NoFold(h: string, i: nat, word: string)
    requires word != "" && forall k | 0 <= k < |h| :: Lower(h[k]) != word[0]
    ensures FindFold(h, i, word) == None
  {
  }

  const SmallRequest: string := "GET /a HTTP/1.1\r\n\r\n"

  /** The request above, character by character. */
  predicate Spelt(h: string) {
    && |h| == 19
    && h[0] == 'G' && h[1] == 'E' && h[2] == 'T' && h[3] == ' ' && h[4] == '/'
    && h[5] == 'a' && h[6] == ' ' && h[7] == 'H' && h[8] == 'T' && h[9] == 'T'
    && h[10] == 'P' && h[11] == '/' && h[12] == '1' && h[13] == '.' && h[14] == '1'
    && h[15] == '\r' && h[16] == '\n' && h[17] == '\r' && h[18] == '\n'
  }

  lemma SmallTarget(h: string)
    requires Spelt(h)
    ensures Find(h, 4, " HTTP/") == Some(6) && PathPart(h[4..6]) == "/a"
  {
    assert !At(h, 4, " HTTP/") by { assert h[4 + 0] != " HTTP/"[0]; }
    assert !At(h, 5, " HTTP/") by { assert h[5 + 0] != " HTTP/"[0]; }
    assert At(h, 6, " HTTP/");
    assert h[4..6] == "/a";
    PathPartExactly("/a", "/a");
  }

  lemma SmallHeader(h: string)
    requires Spelt(h)
    ensures HeaderEnd(h, 0) == Some(19) && At(h, 0, "GET ")
  {
    assert EmptyLineAt(h, 15);
    forall k | 0 <= k < 15
      ensures !EmptyLineAt(h, k)
    {
      assert k < 5 || 5 <= k < 10 || 10 <= k < 15;
    }
    EndUnique(h, 19);
  }

  lemma SmallFields(h: string)
    requires Spelt(h)
    ensures !HasMessageBody(h) && !WantsClose(h)
  {
    forall k | 0 <= k < |h|
      ensures h[k] != 't' && Lower(h[k]) != 'c'
    {
      assert k < 5 || 5 <= k < 10 || 10 <= k < 15 || 15 <= k < 19;
    }
    NoFold(h, 0, "content-length:");
    NoFold(h, 0, "connection:");
    NoWord(h, 0, "transfer-encoding:");
  }

  /** Such requests exist. */
  lemma RequestExists()
    ensures |SmallRequest| == 19 && Request(SmallRequest, "/a")
  {
    assert Spelt(SmallRequest);
    SmallTarget(SmallRequest);
    SmallHeader(SmallRequest);
    SmallFields(SmallRequest);
  }
}
