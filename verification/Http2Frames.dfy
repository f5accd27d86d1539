/** What zero/http/http2.cc keeps over a whole stream of frames. */
module Http2Frames {
  import opened Bytes
  import opened Http2
  import Sequences

  /** A whole frame; SETTINGS that is not an acknowledgement carries six octets per parameter. */
  predicate IsFrame(f: seq<byte>) {
    && |f| >= HEADER_SIZE
    && var h := ParseHeader(f);
       |f| == HEADER_SIZE + h.length && (h.kind == SETTINGS && !IsAck(h) ==> h.length % 6 == 0)
  }

  predicate AllFrames(fs: seq<seq<byte>>) {
    forall i | 0 <= i < |fs| :: IsFrame(fs[i])
  }

  function Join(fs: seq<seq<byte>>): seq<byte> {
    if fs == [] then [] else fs[0] + Join(fs[1..])
  }

  function ParamsOf(f: seq<byte>): seq<Param>
    requires IsFrame(f)
  {
    var h := ParseHeader(f);
    if h.kind == SETTINGS && !IsAck(h) then ParseSettings(f[HEADER_SIZE..]) else []
  }

  predicate Acks(f: seq<byte>)
    requires IsFrame(f)
  {
    ParseHeader(f).kind == SETTINGS && IsAck(ParseHeader(f))
  }

  /** Every parameter of every SETTINGS frame, in the order they came. */
  function AllParams(fs: seq<seq<byte>>): seq<Param>
    requires AllFrames(fs)
  {
    if fs == [] then [] else ParamsOf(fs[0]) + AllParams(fs[1..])
  }

  predicate SomeAck(fs: seq<seq<byte>>)
    requires AllFrames(fs)
  {
    fs != [] && (Acks(fs[0]) || SomeAck(fs[1..]))
  }

  /** The fold over SETTINGS: the last value of each setting wins. */
  function Folded(c: Conn, fs: seq<seq<byte>>): Conn
    requires AllFrames(fs)
  {
    Adopt(c.(acked := c.acked || SomeAck(fs)), AllParams(fs))
  }

  lemma {:induction false} LastOfBoth(a: seq<Param>, b: seq<Param>, id: nat, initial: nat)
    ensures Last(a + b, id, initial) == Last(b, id, Last(a, id, initial))
  {
    if b == [] {
      assert a + b == a;
    } else {
      LastOfBoth(a, b[..|b| - 1], id, initial);
      assert (a + b)[..|a + b| - 1] == a + b[..|b| - 1];
    }
  }

  lemma AdoptBoth(c: Conn, a: seq<Param>, b: seq<Param>)
    ensures Adopt(Adopt(c, a), b) == Adopt(c, a + b)
  {
    LastOfBoth(a, b, MAX_FRAME_SIZE, c.maxFrameSize);
    LastOfBoth(a, b, MAX_CONCURRENT_STREAMS, c.maxConcurrentStreams);
  }

  lemma HeaderOfFirst(f: seq<byte>, rest: seq<byte>)
    requires |f| >= HEADER_SIZE
    ensures ParseHeader(f + rest) == ParseHeader(f)
  {
    assert (f + rest)[..3] == f[..3] && (f + rest)[5..9] == f[5..9];
  }

  /** A frame is taken off the front whatever follows. */
  lemma FrameTaken(c: Conn, f: seq<byte>, rest: seq<byte>)
    requires IsFrame(f)
    ensures Frames(c, f + rest) == Frames(Adopt(c.(acked := c.acked || Acks(f)), ParamsOf(f)), rest)
  {
    HeaderOfFirst(f, rest);
    Sequences.Split(f, rest);
    assert (f + rest)[HEADER_SIZE..|f|] == f[HEADER_SIZE..];
  }

  lemma FoldOne(c: Conn, f: seq<byte>, fs: seq<seq<byte>>)
    requires IsFrame(f) && AllFrames(fs)
    ensures AllFrames([f] + fs)
    ensures Folded(Adopt(c.(acked := c.acked || Acks(f)), ParamsOf(f)), fs) == Folded(c, [f] + fs)
  {
    var all := [f] + fs;
    assert all[1..] == fs;
    AdoptBoth(c.(acked := c.acked || SomeAck(all)), ParamsOf(f), AllParams(fs));
  }

  /** Whole frames, then anything: the frames are folded in and the rest is looked at in the state they left. */
  lemma {:induction false} FramesFold(c: Conn, fs: seq<seq<byte>>, tail: seq<byte>)
    requires AllFrames(fs)
    ensures Frames(c, Join(fs) + tail) == Frames(Folded(c, fs), tail)
    decreases |fs|
  {
    if fs == [] {
      assert Join(fs) + tail == tail;
    } else {
      var f, rest := fs[0], fs[1..];
      assert [f] + rest == fs;
      Sequences.Assoc(f, Join(rest), tail);
      FrameTaken(c, f, Join(rest) + tail);
      FramesFold(Adopt(c.(acked := c.acked || Acks(f)), ParamsOf(f)), rest, tail);
      FoldOne(c, f, rest);
    }
  }

  /** Where a chunk is cut matters: fewer octets than a header are dropped and the call still succeeds; more
      of a frame, but not all, makes it fail after folding the frames before. */
  lemma CutInsideFrame(c: Conn, fs: seq<seq<byte>>, f: seq<byte>, cut: nat)
    requires c.preface && AllFrames(fs) && IsFrame(f) && cut < |f|
    ensures OnFrame(c, Join(fs) + f[..cut]) == Reply(Folded(c, fs), cut < HEADER_SIZE)
  {
    FramesFold(c, fs, f[..cut]);
    if cut >= HEADER_SIZE {
      Sequences.Cut(f, cut);
      HeaderOfFirst(f[..cut], f[cut..]);
    }
  }

  // ---------------------------------------------------------------- splits at frame boundaries

  function Feed(c: Conn, chunks: seq<seq<byte>>): Reply
    decreases |chunks|
  {
    if chunks == [] then Reply(c, true)
    else
      var r := OnFrame(c, chunks[0]);
      if !r.ok then r else Feed(r.conn, chunks[1..])
  }

  predicate AllChunks(chunks: seq<seq<seq<byte>>>) {
    forall i | 0 <= i < |chunks| :: AllFrames(chunks[i])
  }

  function Flat(chunks: seq<seq<seq<byte>>>): (fs: seq<seq<byte>>)
    requires AllChunks(chunks)
    ensures AllFrames(fs)
  {
    if chunks == [] then [] else chunks[0] + Flat(chunks[1..])
  }

  function Wire(chunks: seq<seq<seq<byte>>>): seq<seq<byte>> {
    if chunks == [] then [] else [Join(chunks[0])] + Wire(chunks[1..])
  }

  lemma {:induction false} FoldBoth(c: Conn, a: seq<seq<byte>>, b: seq<seq<byte>>)
    requires AllFrames(a) && AllFrames(b)
    ensures AllFrames(a + b) && Folded(Folded(c, a), b) == Folded(c, a + b)
    decreases |a|
  {
    if a == [] {
      assert a + b == b;
    } else {
      var f, rest := a[0], a[1..];
      assert [f] + rest == a && [f] + (rest + b) == a + b;
      var next := Adopt(c.(acked := c.acked || Acks(f)), ParamsOf(f));
      FoldBoth(next, rest, b);
      FoldOne(c, f, rest);
      FoldOne(c, f, rest + b);
    }
  }

  lemma WholeChunk(c: Conn, fs: seq<seq<byte>>)
    requires c.preface && AllFrames(fs)
    ensures OnFrame(c, Join(fs)) == Reply(Folded(c, fs), true)
  {
    FramesFold(c, fs, []);
    Sequences.Empty(Join(fs));
  }

  lemma PrefaceChunk(c: Conn, s: seq<byte>)
    requires !c.preface
    ensures OnFrame(c, PREFACE + s) == OnFrame(c.(preface := true), s)
  {
    Sequences.Split(PREFACE, s);
  }

  lemma {:induction false} FeedFolds(c: Conn, chunks: seq<seq<seq<byte>>>)
    requires c.preface && AllChunks(chunks)
    ensures Feed(c, Wire(chunks)) == Reply(Folded(c, Flat(chunks)), true)
    decreases |chunks|
  {
    if chunks != [] {
      WholeChunk(c, chunks[0]);
      FeedFolds(Folded(c, chunks[0]), chunks[1..]);
      FoldBoth(c, chunks[0], Flat(chunks[1..]));
    }
  }

  /** The preface with any frames behind it, then the rest of the frames in chunks cut anywhere between
      frames: the connection ends as after one call with everything, which is the fold of the SETTINGS. */
  lemma SplitsAgree(c: Conn, first: seq<seq<byte>>, chunks: seq<seq<seq<byte>>>)
    requires !c.preface && AllFrames(first) && AllChunks(chunks)
    ensures var whole := first + Flat(chunks);
            && AllFrames(whole)
            && Feed(c, [PREFACE + Join(first)] + Wire(chunks)) == Reply(Folded(c.(preface := true), whole), true)
            && OnFrame(c, PREFACE + Join(whole)) == Reply(Folded(c.(preface := true), whole), true)
  {
    var open, whole := c.(preface := true), first + Flat(chunks);
    var all := [PREFACE + Join(first)] + Wire(chunks);
    PrefaceChunk(c, Join(first));
    WholeChunk(open, first);
    assert all[1..] == Wire(chunks);
    FeedFolds(Folded(open, first), chunks);
    FoldBoth(open, first, Flat(chunks));
    PrefaceChunk(c, Join(whole));
    WholeChunk(open, whole);
  }

  // ---------------------------------------------------------------- settings reach the peer

  lemma LocalSettingsIsFrame(c: Conn)
    requires c.maxFrameSize < TWO_32 && c.maxConcurrentStreams < TWO_32
    ensures IsFrame(LocalSettings(c)) && ParamsOf(LocalSettings(c)) == LocalParams(c) && !Acks(LocalSettings(c))
  {
    var payload := SettingsBytes(LocalParams(c));
    var h := Header(|payload|, SETTINGS, 0, 0);
    HeaderOfFirst(HeaderBytes(h), payload);
    HeaderRoundTrip(h);
    Sequences.Split(HeaderBytes(h), payload);
    SettingsRoundTrip(LocalParams(c));
  }

  lemma LocalParamsAdopted(peer: Conn, c: Conn)
    ensures Adopt(peer, LocalParams(c))
            == peer.(maxFrameSize := c.maxFrameSize, maxConcurrentStreams := c.maxConcurrentStreams)
  {
    var ps := LocalParams(c);
    var limit := peer.maxConcurrentStreams;
    assert Last([ps[0]], MAX_CONCURRENT_STREAMS, limit) == c.maxConcurrentStreams;
    assert ps[..2] == [ps[0], ps[1]] && ps[..2][..1] == [ps[0]];
    assert Last(ps[..2], MAX_CONCURRENT_STREAMS, limit) == c.maxConcurrentStreams;
  }

  /** A peer that gets sendLocalSettings takes over exactly the sender's frame size and stream limit. */
  lemma PeerAdoptsSettings(peer: Conn, c: Conn)
    requires c.maxFrameSize < TWO_32 && c.maxConcurrentStreams < TWO_32 && peer.preface
    ensures OnFrame(peer, LocalSettings(c)) == Reply(
              peer.(maxFrameSize := c.maxFrameSize, maxConcurrentStreams := c.maxConcurrentStreams), true)
  {
    LocalSettingsIsFrame(c);
    FrameTaken(peer, LocalSettings(c), []);
    Sequences.Empty(LocalSettings(c));
    LocalParamsAdopted(peer, c);
  }

  // ---------------------------------------------------------------- frames octet by octet

  /** The length a frame announces in its first three octets. */
  function Announced(f: seq<byte>): nat
    requires |f| >= 9
  {
    f[0] as int * 0x1_0000 + f[1] as int * 0x100 + f[2] as int
  }

  lemma HeaderOnOctets(f: seq<byte>)
    requires |f| >= 9
    ensures ParseHeader(f).length == Announced(f) && ParseHeader(f).kind == f[3] && ParseHeader(f).flags == f[4]
    ensures ParseHeader(f).streamId == Join4(f[5], f[6], f[7], f[8]) % TWO_31
  {
    FromThree(f[0], f[1], f[2]);
    FromFour(f[5], f[6], f[7], f[8]);
    assert f[..3] == [f[0], f[1], f[2]] && f[5..9] == [f[5], f[6], f[7], f[8]];
  }

  lemma OneWholeFrame(c: Conn, f: seq<byte>)
    requires c.preface && |f| >= 9 && |f| == 9 + ParseHeader(f).length
    ensures OnFrame(c, f) == OneFrame(c, f)
  {
    var r := OneFrame(c, f);
    assert f[|f|..] == [] && Frames(r.conn, []) == Reply(r.conn, true);
    assert Frames(c, f) == if !r.ok then r else Frames(r.conn, f[|f|..]);
  }

  lemma EmptySettings(c: Conn)
    ensures Adopt(c, ParseSettings([])) == c
  {
  }

  lemma HandledByHeader(c: Conn, f: seq<byte>, h: Header)
    requires |f| >= 9 && h == ParseHeader(f) && |f| == 9 + h.length
    ensures OneFrame(c, f) == if h.kind != 4 then Reply(c, true) else HandleSettings(c, h, f[9..])
  {
    assert f[9..|f|] == f[9..];
  }

  /** What one whole frame does, by its octets: type 4 with an odd flags octet is an acknowledgement; with an
      even one its payload has to be a multiple of six octets; every other type is passed over. */
  lemma FrameOnOctets(c: Conn, f: seq<byte>)
    requires c.preface && |f| >= 9 && |f| == 9 + Announced(f)
    ensures f[3] != 4 ==> OnFrame(c, f) == Reply(c, true)
    ensures f[3] == 4 && f[4] % 2 == 1 ==> OnFrame(c, f) == Reply(c.(acked := true), true)
    ensures f[3] == 4 && f[4] % 2 == 0 && Announced(f) % 6 != 0 ==> OnFrame(c, f) == Reply(c, false)
    ensures f[3] == 4 && f[4] % 2 == 0 && Announced(f) == 0 ==> OnFrame(c, f) == Reply(c, true)
  {
    var h := ParseHeader(f);
    HeaderOnOctets(f);
    OneWholeFrame(c, f);
    HandledByHeader(c, f, h);
    assert |f[9..]| == h.length;
    EmptySettings(c);
    assert h.length == 0 ==> f[9..] == [];
  }

  /** One parameter: identifier 5 is the frame size, 3 the number of streams, and others are passed over. */
  lemma ParameterOnOctets(c: Conn, f: seq<byte>)
    requires c.preface && |f| == 15 && f[0] == f[1] == 0 && f[2] == 6 && f[3] == 4 && f[4] % 2 == 0
    ensures var id, value := f[9] as int * 0x100 + f[10] as int, Join4(f[11], f[12], f[13], f[14]);
            OnFrame(c, f) == Reply(if id == 5 then c.(maxFrameSize := value)
                                   else if id == 3 then c.(maxConcurrentStreams := value) else c, true)
  {
    HeaderOnOctets(f);
    OneWholeFrame(c, f);
    var payload := f[9..15];
    NextParam(payload, 0);
    assert payload[0..] == payload && payload[6..] == [];
    OneParameter(c, ParseSettings(payload)[0], ParseSettings(payload));
  }

  lemma OneParameter(c: Conn, p: Param, ps: seq<Param>)
    requires ps == [p]
    ensures Adopt(c, ps) == if p.id == 5 then c.(maxFrameSize := p.value)
                            else if p.id == 3 then c.(maxConcurrentStreams := p.value) else c
  {
    assert ps[..|ps| - 1] == [];
    assert Last([], 5, c.maxFrameSize) == c.maxFrameSize;
    assert Last([], 3, c.maxConcurrentStreams) == c.maxConcurrentStreams;
  }

  lemma FourParts(h: seq<byte>, a: seq<byte>, b: seq<byte>, d: seq<byte>)
    ensures h + (a + (b + (d + []))) == h + a + b + d
  {
    Sequences.Empty(d);
    Sequences.Assoc(h, a, b + d);
    Sequences.Assoc(h + a, b, d);
  }

  lemma LocalParamsOctets(c: Conn)
    ensures var ps := LocalParams(c);
            SettingsBytes(ps) == ParamBytes(ps[0]) + (ParamBytes(ps[1]) + (ParamBytes(ps[2]) + []))
  {
    var ps := LocalParams(c);
    NextOctets(ps, 0);
    NextOctets(ps, 1);
    NextOctets(ps, 2);
    assert ps[0..] == ps && ps[3..] == [];
  }

  lemma ParamOctets(p: Param)
    ensures ParamBytes(p) == [p.id / 0x100 % 256, p.id % 256, p.value / 0x100_0000 % 256, p.value / 0x1_0000 % 256,
                              p.value / 0x100 % 256, p.value % 256]
  {
    Two(p.id);
    Four(p.value);
  }

  /** The settings frame that is sent, octet by octet. */
  lemma LocalSettingsOctets(c: Conn)
    ensures var s, f := c.maxConcurrentStreams, c.maxFrameSize;
            LocalSettings(c) == [0, 0, 18, 4, 0, 0, 0, 0, 0]
              + [0, 3, s / 0x100_0000 % 256, s / 0x1_0000 % 256, s / 0x100 % 256, s % 256]
              + [0, 4, 0, 0, 255, 255]
              + [0, 5, f / 0x100_0000 % 256, f / 0x1_0000 % 256, f / 0x100 % 256, f % 256]
  {
    var ps := LocalParams(c);
    LocalParamsOctets(c);
    assert |SettingsBytes(ps)| == 18;
    assert ps[0] == Param(3, c.maxConcurrentStreams) && ps[1] == Param(4, 65535) && ps[2] == Param(5, c.maxFrameSize);
    assert LocalSettings(c) == HeaderBytes(Header(18, SETTINGS, 0, 0)) + SettingsBytes(ps);
    SettingsHeader();
    NumberedParam(3, c.maxConcurrentStreams);
    InitialWindow();
    NumberedParam(5, c.maxFrameSize);
    FourParts(HeaderBytes(Header(18, SETTINGS, 0, 0)), ParamBytes(ps[0]), ParamBytes(ps[1]), ParamBytes(ps[2]));
    var s, f := c.maxConcurrentStreams, c.maxFrameSize;
    SameFour(HeaderBytes(Header(18, SETTINGS, 0, 0)), ParamBytes(ps[0]), ParamBytes(ps[1]), ParamBytes(ps[2]),
             [0, 0, 18, 4, 0, 0, 0, 0, 0],
             [0, 3, s / 0x100_0000 % 256, s / 0x1_0000 % 256, s / 0x100 % 256, s % 256],
             [0, 4, 0, 0, 255, 255],
             [0, 5, f / 0x100_0000 % 256, f / 0x1_0000 % 256, f / 0x100 % 256, f % 256]);
  }

  lemma SameFour(h: seq<byte>, a: seq<byte>, b: seq<byte>, d: seq<byte>,
                 k: seq<byte>, x: seq<byte>, y: seq<byte>, z: seq<byte>)
    requires h == k && a == x && b == y && d == z
    ensures h + a + b + d == k + x + y + z
  {
  }

  lemma SettingsHeader()
    ensures HeaderBytes(Header(18, SETTINGS, 0, 0)) == [0, 0, 18, 4, 0, 0, 0, 0, 0]
  {
    HeaderOctets(Header(18, SETTINGS, 0, 0));
  }

  lemma InitialWindow()
    ensures ParamBytes(Param(4, 65535)) == [0, 4, 0, 0, 255, 255]
  {
    ParamOctets(Param(4, 65535));
  }

  lemma NumberedParam(id: nat, v: nat)
    requires id < 256
    ensures ParamBytes(Param(id, v)) == [0, id, v / 0x100_0000 % 256, v / 0x1_0000 % 256, v / 0x100 % 256, v % 256]
  {
    ParamOctets(Param(id, v));
  }

  /** Before the preface a chunk is refused, and nothing is taken from it, unless it begins with
      "PRI * HTTP/2.0", an empty line, "SM" and another. */
  lemma PrefaceRequired(c: Conn, s: seq<byte>)
    requires !c.preface && !(|s| >= 24 && s[..24] == [80, 82, 73, 32, 42, 32, 72, 84, 84, 80, 47, 50, 46, 48, 13, 10,
                                                      13, 10, 83, 77, 13, 10, 13, 10])
    ensures OnFrame(c, s) == Reply(c, false)
  {
    assert |PREFACE| == 24 && PREFACE == [80, 82, 73, 32, 42, 32, 72, 84, 84, 80, 47, 50, 46, 48, 13, 10, 13, 10,
                                          83, 77, 13, 10, 13, 10];
  }
}
