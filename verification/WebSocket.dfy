/** zero/http/ws_session.cc: receiving, sending and echoing WebSocket messages (RFC 6455, sections
    5.2 to 5.5). The functions give each operation's exact effect on a stream; the methods are the
    code, proved against them. WebSocketWire states what that effect means. */
module WebSocket {
  import opened Bytes
  import opened Streams
  import Sequences

  const CONTINUE: byte := 0
  const TEXT_FRAME: byte := 1
  const BIN_FRAME: byte := 2
  const PING: byte := 9
  const PONG: byte := 10

  const PING_FRAME: seq<byte> := [0x89, 0]
  const PONG_FRAME: seq<byte> := [0x8A, 0]

  /** `Undefined` is a write at a negative position of the message: the receiver counts its octets in a
      signed 32-bit variable. */
  datatype Received = Message(opcode: int, data: seq<byte>) | Closed | Undefined

  /** What handling one data frame leads to: give up, or carry on with a longer message. */
  datatype Step =
    | Stop(net: Net)
    | Astray(net: Net)
    | Accepted(opcode: int, data: seq<byte>, net: Net)

  datatype Turn =
    | GiveUp(net: Net)
    | Lost(net: Net)
    | Deliver(opcode: int, data: seq<byte>, net: Net)
    | Again(opcode: int, data: seq<byte>, net: Net)

  predicate IsDataOpcode(op: int) {
    op == CONTINUE as int || op == TEXT_FRAME as int || op == BIN_FRAME as int
  }

  function Masked(payload: seq<byte>, key: seq<byte>): (m: seq<byte>)
    requires |key| == 4
    ensures |m| == |payload|
  {
    seq(|payload|, i requires 0 <= i < |payload| => Xor(payload[i], key[i % 4]))
  }

  lemma MaskedTwice(payload: seq<byte>, key: seq<byte>)
    requires |key| == 4
    ensures Masked(Masked(payload, key), key) == payload
  {
    forall i | 0 <= i < |payload|
      ensures Masked(Masked(payload, key), key)[i] == payload[i]
    {
      XorTwice(payload[i], key[i % 4]);
    }
  }

  /** Each octet is the exclusive or of its own with the one of the key in turn, bit by bit. */
  ghost predicate MaskedBy(payload: seq<byte>, key: seq<byte>, masked: seq<byte>)
    requires |key| == 4
  {
    |masked| == |payload| && forall i | 0 <= i < |payload| :: BitsDiffer(payload[i], key[i % 4], masked[i])
  }

  /** The same for the octets from `from` on; the others are kept. */
  ghost predicate MaskedFrom(data: seq<byte>, from: nat, key: seq<byte>, masked: seq<byte>)
    requires |key| == 4 && from <= |data|
  {
    |masked| == |data| && masked[..from] == data[..from] && MaskedBy(data[from..], key, masked[from..])
  }

  /** Masking does that and nothing else. */
  lemma MaskingIsExclusive(payload: seq<byte>, key: seq<byte>, masked: seq<byte>)
    requires |key| == 4
    ensures MaskedBy(payload, key, masked) <==> masked == Masked(payload, key)
  {
    forall i | 0 <= i < |payload| && i < |masked|
      ensures BitsDiffer(payload[i], key[i % 4], masked[i]) <==> masked[i] == Xor(payload[i], key[i % 4])
    {
      ExclusiveIsXor(payload[i], key[i % 4], masked[i]);
    }
  }

  /** Octets of extended length that follow a header whose 7-bit length field is `code`. */
  function ExtendedSize(code: int): nat {
    if code == 126 then 2 else if code == 127 then 8 else 0
  }

  function OpcodeAfter(opcode: int, op: int): int {
    if opcode == 0 && op != CONTINUE as int then op else opcode
  }

  /** The tail of a data frame: the key if there is one, then `length` octets of payload. */
  function PayloadStep(net: Net, masked: bool, length: nat, limit: nat, opcode: int, op: int,
                       data: seq<byte>): (s: Step)
    ensures s.Accepted? ==> |s.net.incoming| <= |net.incoming|
  {
    if (ToInt32(|data|) + length) % TWO_64 >= limit then Stop(net)
    else if masked && !Readable(net, 4) then Stop(Drained(net, 4))
    else
      var body := if masked then Drained(net, 4) else net;
      if |data| >= TWO_31 then Astray(body)
      else if !ReadSucceeds(body, length) then Stop(Drained(body, length))
      else
        var raw := Took(body, length);
        Accepted(OpcodeAfter(opcode, op),
                 data + if masked then Masked(raw, net.incoming[..4]) else raw,
                 Drained(body, length))
  }

  /** What a payload adds to the message: the octets as they came, or each unmasked bit by bit. */
  lemma PayloadUnmasked(net: Net, masked: bool, length: nat, limit: nat, opcode: int, op: int, data: seq<byte>)
    requires PayloadStep(net, masked, length, limit, opcode, op, data).Accepted?
    ensures var body := if masked then Drained(net, 4) else net;
            var all := PayloadStep(net, masked, length, limit, opcode, op, data).data;
            && |all| >= |data| && all[..|data|] == data && (masked ==> |net.incoming| >= 4)
            && if masked then MaskedBy(Took(body, length), net.incoming[..4], all[|data|..])
               else all[|data|..] == Took(body, length)
  {
    var body := if masked then Drained(net, 4) else net;
    var raw := Took(body, length);
    if masked {
      MaskingIsExclusive(raw, net.incoming[..4], Masked(raw, net.incoming[..4]));
      Sequences.Split(data, Masked(raw, net.incoming[..4]));
    } else {
      Sequences.Split(data, raw);
    }
  }

  /** A data frame whose two header octets `b0`, `b1` have been read. */
  function FrameStep(net: Net, client: bool, limit: nat, opcode: int, data: seq<byte>, b0: byte, b1: byte): (s: Step)
    ensures s.Accepted? ==> |s.net.incoming| <= |net.incoming|
  {
    var extended := ExtendedSize(b1 % 128);
    if !client && b1 < 128 then Stop(net)
    else if extended > 0 && !Readable(net, extended) then Stop(Drained(net, extended))
    else
      var length := if extended > 0 then FromBigEndian(net.incoming[..extended]) else b1 % 128;
      PayloadStep(if extended > 0 then Drained(net, extended) else net,
                  b1 >= 128, length, limit, opcode, b0 % 16, data)
  }

  /** One trip round the receive loop, from the accumulated opcode and data. */
  function TurnOf(net: Net, client: bool, limit: nat, opcode: int, data: seq<byte>): (t: Turn)
    ensures t.Again? ==> |t.net.incoming| < |net.incoming|
  {
    if !Readable(net, 2) then GiveUp(Drained(net, 2))
    else
      var b0, b1 := net.incoming[0], net.incoming[1];
      var after := Drained(net, 2);
      if b0 % 16 == PING then
        if Writable(after, PONG_FRAME) then Again(opcode, data, Sent(after, PONG_FRAME))
        else GiveUp(Close(Sent(after, PONG_FRAME)))
      else if !IsDataOpcode(b0 % 16) then Again(opcode, data, after)
      else
        match FrameStep(after, client, limit, opcode, data, b0, b1)
        case Stop(n) => GiveUp(n)
        case Astray(n) => Lost(n)
        case Accepted(op, d, n) => if b0 >= 128 then Deliver(op, d, n) else Again(op, d, n)
  }

  /** WSRecvMessage: frames are consumed until a final data frame completes a message. */
  function Recv(net: Net, client: bool, limit: nat, opcode: int, data: seq<byte>): (Received, Net)
    decreases |net.incoming|
  {
    match TurnOf(net, client, limit, opcode, data)
    case GiveUp(n) => (Closed, Close(n))
    case Lost(n) => (Undefined, n)
    case Deliver(op, d, n) => (Message(op, d), n)
    case Again(op, d, n) => Recv(n, client, limit, op, d)
  }

  function LengthCode(size: nat): (code: byte)
    ensures code < 128
  {
    if size < 126 then size else if size < 65536 then 126 else 127
  }

  function Header(fin: bool, opcode: int, masked: bool, code: byte): seq<byte>
    requires code < 128
  {
    [(if fin then 128 else 0) + opcode % 16, (if masked then 128 else 0) + code]
  }

  /** The header and the extended length, which go out before the key and the payload. */
  function LengthPart(client: bool, fin: bool, opcode: int, data: seq<byte>): seq<byte> {
    var code := LengthCode(|data|);
    Header(fin, opcode, client, code) + BigEndian(ExtendedSize(code), |data|)
  }

  /** The header octet by octet: the final bit and the opcode, the mask bit and the length, and behind them
      the length in network order where it does not fit seven bits (RFC 6455, section 5.2). */
  lemma LengthPartOctets(client: bool, fin: bool, opcode: byte, data: seq<byte>)
    requires opcode < 16
    ensures var s, n, mask := LengthPart(client, fin, opcode, data), |data|, if client then 128 else 0;
            && s[0] == (if fin then 128 else 0) + opcode
            && (n < 126 ==> s[1..] == [mask + n])
            && (126 <= n < 65536 ==> s[1..] == [mask + 126, n / 256 % 256, n % 256])
            && (n >= 65536 ==> |s| == 10 && s[1] == mask + 127 && forall i | 2 <= i < 10 :: s[i] == n / Pow256(9 - i) % 256)
  {
    var n := |data|;
    if n >= 65536 {
      forall i | 0 <= i < 8
        ensures BigEndian(8, n)[i] == n / Pow256(7 - i) % 256
      {
        BigEndianAt(8, n, i);
      }
    } else if n >= 126 {
      assert Pow256(0) == 1 && Pow256(1) == 256;
      BigEndianAt(2, n, 0);
      BigEndianAt(2, n, 1);
    }
  }

  function Body(client: bool, data: seq<byte>, key: seq<byte>): seq<byte>
    requires |key| == 4
  {
    if client then key + Masked(data, key) else data
  }

  /** Everything WSSendMessage puts on the wire when no write fails. */
  function FrameOctets(client: bool, fin: bool, opcode: int, data: seq<byte>, key: seq<byte>): seq<byte>
    requires |key| == 4
  {
    LengthPart(client, fin, opcode, data) + Body(client, data, key)
  }

  /** WSSendMessage reports success: nothing was cut short and every reported count was positive. */
  predicate SendSucceeds(net: Net, client: bool, fin: bool, opcode: int, data: seq<byte>, key: seq<byte>)
    requires |key| == 4
  {
    Writable(net, FrameOctets(client, fin, opcode, data, key)) && ToInt32(|data|) > 0
  }

  function Send(net: Net, client: bool, fin: bool, opcode: int, data: seq<byte>, key: seq<byte>): Net
    requires |key| == 4
  {
    var after := Sent(net, FrameOctets(client, fin, opcode, data, key));
    if SendSucceeds(net, client, fin, opcode, data, key) then after else Close(after)
  }

  /** What was written ends with the key and the payload under it. */
  ghost predicate EndsMasked(written: seq<byte>, key: seq<byte>, payload: seq<byte>)
    requires |key| == 4
  {
    && |written| >= 4 + |payload|
    && var at := |written| - |payload|;
       written[at - 4..at] == key && MaskedBy(payload, key, written[at..])
  }

  /** What was written ends with the payload as it is. */
  predicate EndsPlain(written: seq<byte>, payload: seq<byte>) {
    |written| >= |payload| && written[|written| - |payload|..] == payload
  }

  lemma SentBody(net: Net, client: bool, fin: bool, opcode: int, data: seq<byte>, key: seq<byte>)
    requires |key| == 4 && SendSucceeds(net, client, fin, opcode, data, key)
    ensures var written := Send(net, client, fin, opcode, data, key).written;
            if client then EndsMasked(written, key, data) else EndsPlain(written, data)
  {
    var octets := FrameOctets(client, fin, opcode, data, key);
    assert octets[..|octets|] == octets;
    var front := net.written + LengthPart(client, fin, opcode, data);
    Sequences.Assoc(net.written, LengthPart(client, fin, opcode, data), Body(client, data, key));
    var written := front + Body(client, data, key);
    if client {
      Sequences.Assoc(front, key, Masked(data, key));
      MaskingIsExclusive(data, key, Masked(data, key));
      assert written[|front| + 4..] == Masked(data, key) && written[|front|..|front| + 4] == key;
    } else {
      Sequences.Split(front, data);
    }
  }

  /** WSPing and WSPong: a two-octet control frame, and a closed stream when it cannot be written. */
  function Control(net: Net, frame: seq<byte>): Net {
    if WriteSucceeds(net, frame) then Sent(net, frame) else Close(Sent(net, frame))
  }

  /** The key and payload of a frame that can be echoed, and the frame sent back. */
  function EchoFrame(net: Net, b0: byte, len: byte): (bool, Net)
    requires len < 128
  {
    if !Readable(net, 4 + len) then (false, Drained(net, 4 + len))
    else
      var frame := net.incoming[..4 + len];
      var out := Header(true, b0 % 16, false, len) + Masked(frame[4..], frame[..4]);
      (WriteSucceeds(Drained(net, 4 + len), out), Sent(Drained(net, 4 + len), out))
  }

  /** echoSmallFrame. */
  function Echo(net: Net): (bool, Net) {
    if !Readable(net, 2) then (false, Drained(net, 2))
    else
      var b0, b1 := net.incoming[0], net.incoming[1];
      var after := Drained(net, 2);
      if b0 % 16 == PING then (WriteSucceeds(after, PONG_FRAME), Control(after, PONG_FRAME))
      else if b0 % 16 == PONG then (true, after)
      else if b0 % 16 != TEXT_FRAME && b0 % 16 != BIN_FRAME then (false, after)
      else if b1 < 128 || b1 == 128 || b1 >= 128 + 126 then (false, after)
      else EchoFrame(after, b0, b1 % 128)
  }

  class WSFrameMessage {
    var opcode: int
    var data: seq<byte>

    constructor (opcode: int, data: seq<byte>)
      ensures this.opcode == opcode && this.data == data
    {
      this.opcode, this.data := opcode, data;
    }
  }

  /** The masking loop: `data[from + i] ^= key[i % 4]` for the octets from `from` on. */
  method ApplyMask(data: seq<byte>, from: nat, key: seq<byte>) returns (r: seq<byte>)
    requires from <= |data| && |key| == 4
    ensures r == data[..from] + Masked(data[from..], key)
    ensures MaskedFrom(data, from, key, r)
  {
    r := data;
    ghost var full := data[..from] + Masked(data[from..], key);
    var i := 0;
    while i < |data| - from
      invariant 0 <= i <= |data| - from && |r| == |data|
      invariant r[..from + i] == full[..from + i]
      invariant r[from + i..] == data[from + i..]
    {
      ghost var before := r;
      r := r[from + i := Xor(r[from + i], key[i % 4])];
      assert before[from + i] == before[from + i..][0] == data[from + i];
      assert r[..from + i] == before[..from + i];
      assert r[..from + i + 1] == r[..from + i] + [full[from + i]];
      i := i + 1;
    }
    MaskingIsExclusive(data[from..], key, r[from..]);
  }

  /** The message with the octets just read behind it, unmasked in place. */
  method Unmask(data: seq<byte>, raw: seq<byte>, key: seq<byte>) returns (all: seq<byte>)
    requires |key| == 4
    ensures all == data + Masked(raw, key)
  {
    all := data + raw;
    Sequences.Split(data, raw);
    all := ApplyMask(all, |data|, key);
  }

  method WSPong(stream: Stream) returns (rc: int)
    modifies stream
    ensures stream.State() == Control(old(stream.State()), PONG_FRAME)
    ensures rc > 0 <==> WriteSucceeds(old(stream.State()), PONG_FRAME)
  {
    rc := stream.WriteFixSize(PONG_FRAME);
    if rc <= 0 {
      stream.CloseStream();
    }
  }

  method WSPing(stream: Stream) returns (rc: int)
    modifies stream
    ensures stream.State() == Control(old(stream.State()), PING_FRAME)
    ensures rc > 0 <==> WriteSucceeds(old(stream.State()), PING_FRAME)
  {
    rc := stream.WriteFixSize(PING_FRAME);
    if rc <= 0 {
      stream.CloseStream();
    }
  }

  /** Sums that wrapped modulo 2^64 stay below the limit only for lengths whose read reports failure. */
  lemma WrappedLengthFails(have: nat, length: nat, limit: nat)
    requires have < TWO_31 && length < TWO_64 && limit <= TWO_32
    requires (have + length) % TWO_64 < limit
    ensures have + length < limit || (length >= TWO_63 && ToInt32(length) <= 0)
  {
    if have + length >= TWO_64 {
      assert length > TWO_64 - TWO_31;
      assert length % TWO_32 == length - (TWO_64 - TWO_32);
    }
  }

  lemma LengthBound(octets: seq<byte>)
    requires |octets| == 2 || |octets| == 8
    ensures FromBigEndian(octets) < TWO_64
  {
    FromBigEndianBound(octets);
    assert Pow256(2) == 65536;
    assert Pow256(4) == TWO_32;
    assert Pow256(6) == 65536 * TWO_32;
    assert Pow256(8) == TWO_64;
  }

  /** ws_recv_small_masked_frame, the fast path for a final masked frame of 1 to 125 octets: it does
      what the general path does from the same stream and accumulator. */
  method RecvSmallMaskedFrame(stream: Stream, b0: byte, b1: byte, limit: nat, opcode: int, data: seq<byte>)
    returns (msg: WSFrameMessage?, astray: bool)
    requires 128 < b1 < 128 + 126 && b0 >= 128
    modifies stream
    ensures msg != null ==> fresh(msg)
    ensures FrameStep(old(stream.State()), false, limit, opcode, data, b0, b1)
         == if astray then Astray(stream.State())
            else if msg != null then Accepted(msg.opcode, msg.data, stream.State()) else Stop(stream.State())
  {
    msg, astray := null, false;
    var length := b1 - 128;
    if (ToInt32(|data|) + length) % TWO_64 >= limit {
      return;
    }
    var rc, key := stream.ReadFixSize(4);
    if rc <= 0 {
      return;
    }
    if |data| >= TWO_31 {
      return null, true;
    }
    var raw;
    rc, raw := stream.ReadFixSize(length);
    if rc <= 0 {
      return;
    }
    var all := Unmask(data, raw, key);
    msg := new WSFrameMessage(if opcode == 0 && b0 % 16 != CONTINUE then b0 % 16 else opcode, all);
  }

  /** The length of a frame: the 7-bit code itself, or the 2 or 8 octets it announces. */
  method ReadLength(stream: Stream, code: byte) returns (ok: bool, length: nat)
    requires code < 128
    modifies stream
    ensures ok <==> ExtendedSize(code) > 0 ==> Readable(old(stream.State()), ExtendedSize(code))
    ensures stream.State() == if ExtendedSize(code) > 0 then Drained(old(stream.State()), ExtendedSize(code))
                              else old(stream.State())
    ensures ok ==>
              length == if ExtendedSize(code) > 0 then FromBigEndian(old(stream.incoming)[..ExtendedSize(code)]) else code
    ensures length < TWO_64
  {
    length := code;
    if ExtendedSize(code) == 0 {
      return true, code;
    }
    var rc, octets := stream.ReadFixSize(ExtendedSize(code));
    ok := rc > 0;
    if ok {
      length := FromBigEndian(octets);
      LengthBound(octets);
    }
  }

  /** The size check, the key, the payload and the unmasking. */
  method ReadPayload(stream: Stream, masked: bool, length: nat, limit: nat, opcode: int, b0: byte, data: seq<byte>)
    returns (ok: bool, astray: bool, op: int, all: seq<byte>)
    requires length < TWO_64
    modifies stream
    ensures PayloadStep(old(stream.State()), masked, length, limit, opcode, b0 % 16, data)
         == if astray then Astray(stream.State())
            else if ok then Accepted(op, all, stream.State()) else Stop(stream.State())
  {
    ok, astray, op, all := false, false, opcode, data;
    if (ToInt32(|data|) + length) % TWO_64 >= limit {
      return;
    }
    var rc: int;
    var key: seq<byte> := [0, 0, 0, 0];
    if masked {
      rc, key := stream.ReadFixSize(4);
      if rc <= 0 {
        return;
      }
    }
    if |data| >= TWO_31 {
      astray := true;
      return;
    }
    var raw;
    rc, raw := stream.ReadFixSize(length);
    if rc <= 0 {
      return;
    }
    all := data + raw;
    if masked {
      all := Unmask(data, raw, key);
    }
    if opcode == 0 && b0 % 16 != CONTINUE {
      op := b0 % 16;
    }
    ok := true;
  }

  /** The general path for a data frame whose header is acceptable. */
  method RecvFrame(stream: Stream, client: bool, b0: byte, b1: byte, limit: nat, opcode: int, data: seq<byte>)
    returns (ok: bool, astray: bool, op: int, all: seq<byte>)
    requires client || b1 >= 128
    modifies stream
    ensures FrameStep(old(stream.State()), client, limit, opcode, data, b0, b1)
         == if astray then Astray(stream.State())
            else if ok then Accepted(op, all, stream.State()) else Stop(stream.State())
  {
    astray, op, all := false, opcode, data;
    var length;
    ok, length := ReadLength(stream, b1 % 128);
    if ok {
      ok, astray, op, all := ReadPayload(stream, b1 >= 128, length, limit, opcode, b0, data);
    }
  }

  /** The body of the receive loop: `go` unless the loop has to be left without a message; `astray` when
      the message has outgrown the variable that counts it. */
  method NextFrame(stream: Stream, client: bool, limit: nat, opcode: int, data: seq<byte>)
    returns (go: bool, astray: bool, msg: WSFrameMessage?, op: int, all: seq<byte>)
    modifies stream
    ensures msg != null ==> fresh(msg)
    ensures TurnOf(old(stream.State()), client, limit, opcode, data)
         == if astray then Lost(stream.State())
            else if msg != null then Deliver(msg.opcode, msg.data, stream.State())
            else if go then Again(op, all, stream.State())
            else GiveUp(stream.State())
  {
    go, astray, msg, op, all := false, false, null, opcode, data;
    var rc, head := stream.ReadFixSize(2);
    if rc <= 0 {
      return;
    }
    var b0, b1 := head[0], head[1];
    if b0 % 16 == PING {
      rc := WSPong(stream);
      go := rc > 0;
      return;
    }
    if !IsDataOpcode(b0 % 16) {
      go := true;
      return;
    }
    if !client && b1 < 128 {
      return;
    }
    if !client && b0 >= 128 && 0 < b1 % 128 < 126 && b0 % 16 != CONTINUE {
      msg, astray := RecvSmallMaskedFrame(stream, b0, b1, limit, opcode, data);
      return;
    }
    go, astray, op, all := RecvFrame(stream, client, b0, b1, limit, opcode, data);
    if go && b0 >= 128 {
      msg := new WSFrameMessage(op, all);
    }
  }

  method WSRecvMessage(stream: Stream, client: bool, limit: nat) returns (msg: WSFrameMessage?, astray: bool)
    modifies stream
    ensures msg != null ==> fresh(msg)
    ensures Recv(old(stream.State()), client, limit, 0, [])
         == (if astray then Undefined else if msg != null then Message(msg.opcode, msg.data) else Closed, stream.State())
  {
    var opcode := 0;
    var data: seq<byte> := [];
    while true
      invariant Recv(stream.State(), client, limit, opcode, data)
             == Recv(old(stream.State()), client, limit, 0, [])
      decreases |stream.incoming|
    {
      var go;
      go, astray, msg, opcode, data := NextFrame(stream, client, limit, opcode, data);
      if astray || msg != null {
        return;
      }
      if !go {
        break;
      }
    }
    stream.CloseStream();
    msg := null;
  }

  /** The header, and the extended length when the code announces one. */
  method WriteLengthPart(stream: Stream, client: bool, fin: bool, opcode: int, data: seq<byte>) returns (ok: bool)
    requires |data| < TWO_63
    modifies stream
    ensures stream.State() == Sent(old(stream.State()), LengthPart(client, fin, opcode, data))
    ensures ok <==> Writable(old(stream.State()), LengthPart(client, fin, opcode, data))
  {
    ghost var net := stream.State();
    var code := LengthCode(|data|);
    var head := Header(fin, opcode, client, code);
    var octets := BigEndian(ExtendedSize(code), |data|);
    SentTwice(net, head, octets);
    var rc := stream.WriteFixSize(head);
    if rc > 0 && ExtendedSize(code) > 0 {
      rc := stream.WriteFixSize(octets);
    } else if ExtendedSize(code) == 0 {
      assert head + octets == head;
    }
    ok := rc > 0;
  }

  /** The key, when the sender is a client, and the payload, masked in the message's own buffer. */
  method WriteBody(stream: Stream, msg: WSFrameMessage, client: bool, key: seq<byte>) returns (ok: bool)
    requires |key| == 4 && |msg.data| < TWO_63
    modifies stream, msg`data
    ensures stream.State() == Sent(old(stream.State()), Body(client, old(msg.data), key))
    ensures ok <==> Writable(old(stream.State()), Body(client, old(msg.data), key)) && ToInt32(|old(msg.data)|) > 0
    ensures msg.data == if client then Masked(old(msg.data), key) else old(msg.data)
  {
    var rc: int;
    if client {
      assert msg.data[0..] == msg.data;
      msg.data := ApplyMask(msg.data, 0, key);
      SentTwice(stream.State(), key, msg.data);
      rc := stream.WriteFixSize(key);
      if rc <= 0 {
        return false;
      }
    }
    rc := stream.WriteFixSize(msg.data);
    ok := rc > 0;
  }

  /** `key` is the value `rand()` supplied. A client masks the message's own buffer in place, unless
      the header could not be written. */
  method WSSendMessage(stream: Stream, msg: WSFrameMessage, client: bool, fin: bool, key: seq<byte>)
    returns (rc: int)
    requires |key| == 4 && |msg.data| < TWO_63
    modifies stream, msg`data
    ensures var net, op, data := old(stream.State()), old(msg.opcode), old(msg.data);
            && stream.State() == Send(net, client, fin, op, data, key)
            && rc == (if SendSucceeds(net, client, fin, op, data, key) then ToInt32(|data| + 2) else -1)
            && msg.data == if client && Writable(net, LengthPart(client, fin, op, data)) then Masked(data, key)
                           else data
    ensures rc != -1 ==>
      if client then EndsMasked(stream.written, key, old(msg.data)) else EndsPlain(stream.written, old(msg.data))
  {
    if SendSucceeds(stream.State(), client, fin, msg.opcode, msg.data, key) {
      SentBody(stream.State(), client, fin, msg.opcode, msg.data, key);
    }
    SentTwice(stream.State(), LengthPart(client, fin, msg.opcode, msg.data), Body(client, msg.data, key));
    var size := |msg.data|;
    var ok := WriteLengthPart(stream, client, fin, msg.opcode, msg.data);
    if ok {
      ok := WriteBody(stream, msg, client, key);
    }
    if ok {
      return ToInt32(size + 2);
    }
    stream.CloseStream();
    rc := -1;
  }

  method EchoSmallFrame(stream: Stream) returns (ok: bool)
    modifies stream
    ensures (ok, stream.State()) == Echo(old(stream.State()))
  {
    var rc, head := stream.ReadFixSize(2);
    if rc <= 0 {
      return false;
    }
    var b0, b1 := head[0], head[1];
    if b0 % 16 == PING {
      rc := WSPong(stream);
      return rc > 0;
    }
    if b0 % 16 == PONG {
      return true;
    }
    if b0 % 16 != TEXT_FRAME && b0 % 16 != BIN_FRAME {
      return false;
    }
    if b1 < 128 || b1 % 128 == 0 || b1 % 128 >= 126 {
      return false;
    }
    var len := b1 % 128;
    var frame;
    rc, frame := stream.ReadFixSize(4 + len);
    if rc <= 0 {
      return false;
    }
    frame := ApplyMask(frame, 4, frame[..4]);
    rc := stream.WriteFixSize(Header(true, b0 % 16, false, len) + frame[4..]);
    ok := rc > 0;
  }
}
