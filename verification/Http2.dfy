/** zero/http/http2.cc: the connection preface, the frame header, SETTINGS frames and the connection that
    folds over them (RFC 7540, sections 3.5, 4.1 and 6.5). */
module Http2 {
  import opened Bytes
  import Sequences

  const HEADER_SIZE: nat := 9
  const SETTINGS: byte := 4
  const MAX_CONCURRENT_STREAMS: nat := 3
  const INITIAL_WINDOW_SIZE: nat := 4
  const MAX_FRAME_SIZE: nat := 5

  /** "PRI * HTTP/2.0\r\n\r\nSM\r\n\r\n" */
  const PREFACE: seq<byte> := [80, 82, 73, 32, 42, 32, 72, 84, 84, 80, 47, 50, 46, 48, 13, 10, 13, 10,
                               83, 77, 13, 10, 13, 10]

  // ---------------------------------------------------------------- frame header

  datatype Header = Header(length: nat, kind: byte, flags: byte, streamId: nat)

  function HeaderBytes(h: Header): (s: seq<byte>)
    ensures |s| == HEADER_SIZE
  {
    BigEndian(3, h.length) + ([h.kind, h.flags] + BigEndian(4, h.streamId % TWO_31))
  }

  function ParseHeader(s: seq<byte>): (h: Header)
    requires |s| >= HEADER_SIZE
    ensures h.length < 0x100_0000 && h.streamId < TWO_31
  {
    FromBigEndianBound(s[..3]);
    assert Pow256(3) == 0x100_0000;
    Header(FromBigEndian(s[..3]), s[3], s[4], FromBigEndian(s[5..9]) % TWO_31)
  }

  /** data[0..3], written octet by octet. */
  lemma Three(v: nat)
    ensures BigEndian(3, v) == [v / 0x1_0000 % 256, v / 0x100 % 256, v % 256]
  {
    assert BigEndian(1, v / 256 / 256) == [v / 256 / 256 % 256];
    assert BigEndian(2, v / 256) == [v / 256 / 256 % 256, v / 256 % 256];
  }

  lemma Two(v: nat)
    ensures BigEndian(2, v) == [v / 0x100 % 256, v % 256]
  {
    assert BigEndian(1, v / 256) == [v / 256 % 256];
  }

  lemma Four(v: nat)
    ensures BigEndian(4, v) == [v / 0x100_0000 % 256, v / 0x1_0000 % 256, v / 0x100 % 256, v % 256]
  {
    Three(v / 256);
    assert v / 256 / 0x1_0000 == v / 0x100_0000 && v / 256 / 0x100 == v / 0x1_0000;
  }

  lemma FromTwo(a: byte, b: byte)
    ensures FromBigEndian([a, b]) == a * 0x100 + b
  {
    assert [a, b][..1] == [a];
    assert FromBigEndian([a]) == a;
  }

  lemma FromThree(a: byte, b: byte, c: byte)
    ensures FromBigEndian([a, b, c]) == a * 0x1_0000 + b * 0x100 + c
  {
    FromTwo(a, b);
    assert [a, b, c][..2] == [a, b];
  }

  lemma FromFour(a: byte, b: byte, c: byte, d: byte)
    ensures FromBigEndian([a, b, c, d]) == a * 0x100_0000 + b * 0x1_0000 + c * 0x100 + d
  {
    FromThree(a, b, c);
    assert [a, b, c, d][..3] == [a, b, c];
  }

  /** Octets shifted together, most significant first. */
  function Join2(a: nat, b: nat): nat {
    a * 0x100 + b
  }

  function Join3(a: nat, b: nat, c: nat): nat {
    a * 0x1_0000 + b * 0x100 + c
  }

  function Join4(a: nat, b: nat, c: nat, d: nat): nat {
    a * 0x100_0000 + b * 0x1_0000 + c * 0x100 + d
  }

  class FrameHeader {
    var length: nat
    var kind: byte
    var flags: byte
    var streamId: nat

    function Value(): Header
      reads this
    {
      Header(length, kind, flags, streamId)
    }

    constructor ()
      ensures Value() == Header(0, 0, 0, 0)
    {
      length, kind, flags, streamId := 0, 0, 0, 0;
    }

    method Decode(data: seq<byte>) returns (ok: bool)
      modifies this
      ensures ok <==> |data| >= HEADER_SIZE
      ensures ok ==> Value() == ParseHeader(data)
      ensures !ok ==> Value() == old(Value())
    {
      if |data| < HEADER_SIZE {
        return false;
      }
      FromThree(data[0], data[1], data[2]);
      FromFour(data[5], data[6], data[7], data[8]);
      assert data[..3] == [data[0], data[1], data[2]];
      assert data[5..9] == [data[5], data[6], data[7], data[8]];
      length := Join3(data[0], data[1], data[2]);
      kind := data[3];
      flags := data[4];
      streamId := Join4(data[5], data[6], data[7], data[8]);
      streamId := streamId % TWO_31;
      ok := true;
    }

    /** Writes the first nine octets of `data` and no other. */
    method Encode(data: array<byte>)
      requires data.Length >= HEADER_SIZE
      modifies data
      ensures data[..] == HeaderBytes(Value()) + old(data[HEADER_SIZE..])
    {
      data[0] := length / 0x1_0000 % 256;
      data[1] := length / 0x100 % 256;
      data[2] := length % 256;
      data[3] := kind;
      data[4] := flags;
      data[5] := streamId / 0x100_0000 % 128;
      data[6] := streamId / 0x1_0000 % 256;
      data[7] := streamId / 0x100 % 256;
      data[8] := streamId % 256;
      HeaderOctets(Value());
      assert data[..9] == HeaderBytes(Value());
      assert data[9..] == old(data[9..]);
      assert data[..] == data[..9] + data[9..];
    }
  }

  lemma Masked0(id: nat)
    ensures id % TWO_31 % 256 == id % 256
  {
  }

  lemma Masked1(id: nat)
    ensures id % TWO_31 / 0x100 % 256 == id / 0x100 % 256
  {
    assert id / 0x100 == id / TWO_31 * 0x80_0000 + id % TWO_31 / 0x100;
  }

  lemma Masked2(id: nat)
    ensures id % TWO_31 / 0x1_0000 % 256 == id / 0x1_0000 % 256
  {
    assert id / 0x1_0000 == id / TWO_31 * 0x8000 + id % TWO_31 / 0x1_0000;
  }

  lemma Masked3(id: nat)
    ensures id % TWO_31 / 0x100_0000 % 256 == id / 0x100_0000 % 128
  {
    assert id / 0x100_0000 == id / TWO_31 * 128 + id % TWO_31 / 0x100_0000;
  }

  lemma HeaderOctets(h: Header)
    ensures HeaderBytes(h) == [h.length / 0x1_0000 % 256, h.length / 0x100 % 256, h.length % 256, h.kind, h.flags,
                               h.streamId / 0x100_0000 % 128, h.streamId / 0x1_0000 % 256,
                               h.streamId / 0x100 % 256, h.streamId % 256]
  {
    Three(h.length);
    Four(h.streamId % TWO_31);
    Masked0(h.streamId);
    Masked1(h.streamId);
    Masked2(h.streamId);
    Masked3(h.streamId);
  }

  /** A header is read back exactly when its length fits 24 bits and its stream id 31; otherwise both come
      back cut to that size. */
  lemma HeaderRoundTrip(h: Header)
    ensures ParseHeader(HeaderBytes(h)) == h.(length := h.length % 0x100_0000, streamId := h.streamId % TWO_31)
    ensures ParseHeader(HeaderBytes(h)) == h <==> h.length < 0x100_0000 && h.streamId < TWO_31
  {
    LengthRoundTrip(h.length);
    StreamRoundTrip(h.streamId % TWO_31);
    HeaderFields(h);
  }

  lemma HeaderFields(h: Header)
    ensures var s := HeaderBytes(h);
            s[..3] == BigEndian(3, h.length) && s[3] == h.kind && s[4] == h.flags
            && s[5..9] == BigEndian(4, h.streamId % TWO_31)
  {
  }

  lemma StreamRoundTrip(id: nat)
    requires id < TWO_31
    ensures FromBigEndian(BigEndian(4, id)) == id
  {
    assert Pow256(4) == TWO_32;
    BigEndianRoundTrip(4, id);
  }

  lemma TwoDigits(v: nat, n: nat)
    requires n > 0
    ensures v == v / n * n + v % n
  {
  }

  lemma LowOctets(v: nat)
    ensures v % 0x100_0000 == v / 0x1_0000 % 256 * 0x1_0000 + v / 0x100 % 256 * 0x100 + v % 256
  {
    TwoDigits(v, 256);
    TwoDigits(v / 256, 256);
    TwoDigits(v / 256 / 256, 256);
    assert v / 256 / 256 == v / 0x1_0000;
  }

  lemma LengthRoundTrip(length: nat)
    ensures FromBigEndian(BigEndian(3, length)) == length % 0x100_0000
  {
    Three(length);
    LowOctets(length);
    FromThree(length / 0x1_0000 % 256, length / 0x100 % 256, length % 256);
  }

  /** The stream id loses its top bit, and with it the reserved bit of its first octet. */
  lemma ReservedBit(a: byte, b: byte, c: byte, d: byte)
    ensures FromBigEndian([a, b, c, d]) % TWO_31 == FromBigEndian([a % 128, b, c, d])
  {
    FromFour(a, b, c, d);
    FromFour(a % 128, b, c, d);
    assert a == a / 128 * 128 + a % 128;
  }

  /** Writing back what was read restores the nine octets with the reserved bit cleared. */
  lemma HeaderInverse(s: seq<byte>)
    requires |s| == HEADER_SIZE
    ensures HeaderBytes(ParseHeader(s)) == s[5 := s[5] % 128]
  {
    var low := [s[5] % 128, s[6], s[7], s[8]];
    ReservedBit(s[5], s[6], s[7], s[8]);
    assert s[5..9] == [s[5], s[6], s[7], s[8]];
    BigEndianInverse(s[..3]);
    BigEndianInverse(low);
    SmallStream(low);
    var h := ParseHeader(s);
    assert BigEndian(3, h.length) == s[..3] && BigEndian(4, h.streamId % TWO_31) == low;
  }

  lemma SmallStream(low: seq<byte>)
    requires |low| == 4 && low[0] < 128
    ensures FromBigEndian(low) % TWO_31 == FromBigEndian(low)
  {
    assert low == [low[0], low[1], low[2], low[3]];
    FromFour(low[0], low[1], low[2], low[3]);
  }

  // ---------------------------------------------------------------- SETTINGS

  datatype Param = Param(id: nat, value: nat)

  function ParamBytes(p: Param): (s: seq<byte>)
    ensures |s| == 6
  {
    BigEndian(2, p.id) + BigEndian(4, p.value)
  }

  function ParseParam(s: seq<byte>): (p: Param)
    requires |s| == 6
  {
    Param(FromBigEndian(s[..2]), FromBigEndian(s[2..]))
  }

  function SettingsBytes(ps: seq<Param>): (s: seq<byte>)
    ensures |s| == 6 * |ps|
  {
    if ps == [] then [] else ParamBytes(ps[0]) + SettingsBytes(ps[1..])
  }

  function ParseSettings(s: seq<byte>): (ps: seq<Param>)
    requires |s| % 6 == 0
    ensures 6 * |ps| == |s|
  {
    if s == [] then [] else [ParseParam(s[..6])] + ParseSettings(s[6..])
  }

  predicate IsParam(p: Param) {
    p.id < 0x1_0000 && p.value < TWO_32
  }

  lemma ParamRoundTrip(p: Param)
    requires IsParam(p)
    ensures ParseParam(ParamBytes(p)) == p
  {
    assert Pow256(2) == 0x1_0000 && Pow256(4) == TWO_32;
    BigEndianRoundTrip(2, p.id);
    BigEndianRoundTrip(4, p.value);
    Sequences.Split(BigEndian(2, p.id), BigEndian(4, p.value));
  }

  lemma ParamInverse(s: seq<byte>)
    requires |s| == 6
    ensures ParamBytes(ParseParam(s)) == s && IsParam(ParseParam(s))
  {
    BigEndianInverse(s[..2]);
    BigEndianInverse(s[2..]);
    FromBigEndianBound(s[..2]);
    FromBigEndianBound(s[2..]);
    assert Pow256(2) == 0x1_0000 && Pow256(4) == TWO_32;
    Sequences.Cut(s, 2);
  }

  lemma {:induction false} SettingsRoundTrip(ps: seq<Param>)
    requires forall p <- ps :: IsParam(p)
    ensures ParseSettings(SettingsBytes(ps)) == ps
  {
    if ps != [] {
      ParamRoundTrip(ps[0]);
      SettingsRoundTrip(ps[1..]);
      Sequences.Split(ParamBytes(ps[0]), SettingsBytes(ps[1..]));
    }
  }

  lemma {:induction false} SettingsInverse(s: seq<byte>)
    requires |s| % 6 == 0
    ensures SettingsBytes(ParseSettings(s)) == s && forall p <- ParseSettings(s) :: IsParam(p)
    decreases |s|
  {
    if s != [] {
      ParamInverse(s[..6]);
      SettingsInverse(s[6..]);
      Sequences.Cut(s, 6);
    }
  }

  class SettingsFrame {
    var params: seq<Param>

    constructor ()
      ensures params == []
    {
      params := [];
    }

    method Decode(payload: seq<byte>) returns (ok: bool)
      modifies this
      ensures ok <==> |payload| % 6 == 0
      ensures ok ==> params == ParseSettings(payload)
      ensures !ok ==> params == old(params)
    {
      if |payload| % 6 != 0 {
        return false;
      }
      params := [];
      var i := 0;
      while i < |payload|
        invariant i <= |payload| && (|payload| - i) % 6 == 0
        invariant ParseSettings(payload) == params + ParseSettings(payload[i..])
      {
        NextParam(payload, i);
        var id := Join2(payload[i], payload[i + 1]);
        var value := Join4(payload[i + 2], payload[i + 3], payload[i + 4], payload[i + 5]);
        Sequences.Assoc(params, [Param(id, value)], ParseSettings(payload[i + 6..]));
        params := params + [Param(id, value)];
        i := i + 6;
      }
      ok := true;
    }

    method Encode() returns (out: seq<byte>)
      ensures out == SettingsBytes(params)
    {
      out := [];
      assert params[0..] == params;
      for k := 0 to |params|
        invariant SettingsBytes(params) == out + SettingsBytes(params[k..])
      {
        var p := params[k];
        NextOctets(params, k);
        Sequences.Assoc(out, ParamBytes(p), SettingsBytes(params[k + 1..]));
        out := out + [p.id / 0x100 % 256, p.id % 256, p.value / 0x100_0000 % 256, p.value / 0x1_0000 % 256,
                      p.value / 0x100 % 256, p.value % 256];
      }
    }
  }

  lemma NextOctets(params: seq<Param>, k: nat)
    requires k < |params|
    ensures var p := params[k];
            ParamBytes(p) == [p.id / 0x100 % 256, p.id % 256, p.value / 0x100_0000 % 256, p.value / 0x1_0000 % 256,
                              p.value / 0x100 % 256, p.value % 256]
    ensures SettingsBytes(params[k..]) == ParamBytes(params[k]) + SettingsBytes(params[k + 1..])
  {
    Two(params[k].id);
    Four(params[k].value);
    assert params[k..][1..] == params[k + 1..];
  }

  lemma NextParam(s: seq<byte>, i: nat)
    requires i < |s| && (|s| - i) % 6 == 0
    ensures i + 6 <= |s| && (|s| - i - 6) % 6 == 0
    ensures ParseSettings(s[i..])
            == [Param(Join2(s[i], s[i + 1]), Join4(s[i + 2], s[i + 3], s[i + 4], s[i + 5]))]
               + ParseSettings(s[i + 6..])
  {
    var t := s[i..];
    assert t[..6][..2] == [s[i], s[i + 1]];
    assert t[..6][2..] == [s[i + 2], s[i + 3], s[i + 4], s[i + 5]];
    FromTwo(s[i], s[i + 1]);
    FromFour(s[i + 2], s[i + 3], s[i + 4], s[i + 5]);
    assert t[6..] == s[i + 6..];
  }

  // ---------------------------------------------------------------- the connection

  datatype Conn = Conn(preface: bool, acked: bool, maxFrameSize: nat, maxConcurrentStreams: nat)

  const FRESH: Conn := Conn(false, false, 16384, 100)

  /** The last value for `id`, or `initial`. */
  function Last(ps: seq<Param>, id: nat, initial: nat): nat {
    if ps == [] then initial
    else if ps[|ps| - 1].id == id then ps[|ps| - 1].value
    else Last(ps[..|ps| - 1], id, initial)
  }

  function Adopt(c: Conn, ps: seq<Param>): Conn {
    c.(maxFrameSize := Last(ps, MAX_FRAME_SIZE, c.maxFrameSize),
       maxConcurrentStreams := Last(ps, MAX_CONCURRENT_STREAMS, c.maxConcurrentStreams))
  }

  predicate IsAck(h: Header) {
    h.flags % 2 == 1
  }

  datatype Reply = Reply(conn: Conn, ok: bool)

  function HandleSettings(c: Conn, h: Header, payload: seq<byte>): Reply {
    if IsAck(h) then Reply(c.(acked := true), true)
    else if |payload| % 6 != 0 then Reply(c, false)
    else Reply(Adopt(c, ParseSettings(payload)), true)
  }

  /** One frame at the front of `s`, of which it takes `taken` octets. */
  function OneFrame(c: Conn, s: seq<byte>): Reply
    requires |s| >= HEADER_SIZE && |s| >= HEADER_SIZE + ParseHeader(s).length
  {
    var h := ParseHeader(s);
    if h.kind == SETTINGS then HandleSettings(c, h, s[HEADER_SIZE..HEADER_SIZE + h.length]) else Reply(c, true)
  }

  function Frames(c: Conn, s: seq<byte>): Reply
    decreases |s|
  {
    if |s| < HEADER_SIZE then Reply(c, true)
    else
      var size := HEADER_SIZE + ParseHeader(s).length;
      if |s| < size then Reply(c, false)
      else
        var r := OneFrame(c, s);
        if !r.ok then r else Frames(r.conn, s[size..])
  }

  /** onFrame: the preface once, then whole frames; fewer octets than a header are dropped in silence. */
  function OnFrame(c: Conn, s: seq<byte>): Reply {
    if c.preface then Frames(c, s)
    else if |s| < |PREFACE| || s[..|PREFACE|] != PREFACE then Reply(c, false)
    else Frames(c.(preface := true), s[|PREFACE|..])
  }

  class Http2Connection {
    var receivedPreface: bool
    var settingsAcked: bool
    var maxFrameSize: nat
    var maxConcurrentStreams: nat

    function Value(): Conn
      reads this
    {
      Conn(receivedPreface, settingsAcked, maxFrameSize, maxConcurrentStreams)
    }

    constructor ()
      ensures Value() == FRESH
    {
      receivedPreface, settingsAcked, maxFrameSize, maxConcurrentStreams := false, false, 16384, 100;
    }

    method HandleSettingsFrame(header: FrameHeader, payload: seq<byte>) returns (ok: bool)
      modifies this
      ensures Reply(Value(), ok) == HandleSettings(old(Value()), header.Value(), payload)
    {
      if header.flags % 2 == 1 {
        settingsAcked := true;
        return true;
      }
      var settings := new SettingsFrame();
      ok := settings.Decode(payload);
      if !ok {
        return;
      }
      ghost var before := Value();
      var params := settings.params;
      for k := 0 to |params|
        invariant Value() == Adopt(before, params[..k])
      {
        var p := params[k];
        assert params[..k + 1][..k] == params[..k];
        if p.id == MAX_FRAME_SIZE {
          maxFrameSize := p.value;
        } else if p.id == MAX_CONCURRENT_STREAMS {
          maxConcurrentStreams := p.value;
        }
      }
      assert params[..|params|] == params;
    }

    method Receive(data: seq<byte>) returns (ok: bool)
      modifies this
      ensures Reply(Value(), ok) == OnFrame(old(Value()), data)
    {
      var pos := 0;
      if !receivedPreface {
        if |data| < |PREFACE| {
          return false;
        }
        if data[..|PREFACE|] != PREFACE {
          return false;
        }
        receivedPreface := true;
        pos := |PREFACE|;
      }
      assert data[0..] == data;
      ok := ReceiveFrames(data, pos);
    }

    /** The loop over frames; `data` and `len` advance together. */
    method ReceiveFrames(data: seq<byte>, start: nat) returns (ok: bool)
      requires start <= |data|
      modifies this
      ensures Reply(Value(), ok) == Frames(old(Value()), data[start..])
    {
      var pos := start;
      ghost var before := Value();
      while |data| - pos >= HEADER_SIZE
        invariant start <= pos <= |data|
        invariant Frames(before, data[start..]) == Frames(Value(), data[pos..])
        decreases |data| - pos
      {
        var header := new FrameHeader();
        ok := header.Decode(data[pos..]);
        if |data| - pos < HEADER_SIZE + header.length {
          return false;
        }
        var size := HEADER_SIZE + header.length;
        ok := HandleFrame(header, data[pos..]);
        if !ok {
          return false;
        }
        Sequences.Cut(data, pos);
        assert data[pos..][size..] == data[pos + size..];
        pos := pos + size;
      }
      ok := true;
    }

    method HandleFrame(header: FrameHeader, data: seq<byte>) returns (ok: bool)
      requires |data| >= HEADER_SIZE && header.Value() == ParseHeader(data) && |data| >= HEADER_SIZE + header.length
      modifies this
      ensures Reply(Value(), ok) == OneFrame(old(Value()), data)
    {
      ok := true;
      if header.kind == SETTINGS {
        ok := HandleSettingsFrame(header, data[HEADER_SIZE..HEADER_SIZE + header.length]);
      }
    }

    method SendLocalSettings() returns (frame: seq<byte>)
      ensures frame == LocalSettings(Value())
    {
      var settings := new SettingsFrame();
      settings.params := settings.params + [Param(MAX_CONCURRENT_STREAMS, maxConcurrentStreams)];
      settings.params := settings.params + [Param(INITIAL_WINDOW_SIZE, 65535)];
      settings.params := settings.params + [Param(MAX_FRAME_SIZE, maxFrameSize)];
      assert settings.params == LocalParams(Value());
      var payload := settings.Encode();
      var header := new FrameHeader();
      header.length := |payload|;
      header.kind := SETTINGS;
      var octets := new byte[HEADER_SIZE];
      header.Encode(octets);
      assert octets[..] == HeaderBytes(header.Value());
      frame := octets[..] + payload;
    }
  }

  function LocalParams(c: Conn): seq<Param> {
    [Param(MAX_CONCURRENT_STREAMS, c.maxConcurrentStreams), Param(INITIAL_WINDOW_SIZE, 65535),
     Param(MAX_FRAME_SIZE, c.maxFrameSize)]
  }

  function LocalSettings(c: Conn): seq<byte> {
    var payload := SettingsBytes(LocalParams(c));
    HeaderBytes(Header(|payload|, SETTINGS, 0, 0)) + payload
  }
}
