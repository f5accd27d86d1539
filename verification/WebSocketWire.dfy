/** What the WebSocket code means on the wire: a grammar of the frames the receiver understands,
    the exact set of inputs it accepts, and the round trip of whole conversations. */
module WebSocketWire {
  import opened Bytes
  import opened Streams
  import opened WebSocket
  import Sequences

  datatype LengthForm = Short | Medium | Long

  /** Frames as the receiver reads them. It takes two octets for everything that is not a data
      frame, so a control frame stands for its header alone. */
  datatype Frame =
    | PingFrame(b0: byte, b1: byte)
    | SkippedFrame(b0: byte, b1: byte)
    | DataFrame(b0: byte, form: LengthForm, key: seq<byte>, payload: seq<byte>)

  function Code(form: LengthForm, size: nat): int {
    match form
    case Short => size
    case Medium => 126
    case Long => 127
  }

  predicate Legal(f: Frame, client: bool) {
    match f
    case PingFrame(b0, _) => b0 % 16 == PING
    case SkippedFrame(b0, _) => b0 % 16 != PING && !IsDataOpcode(b0 % 16)
    case DataFrame(b0, form, key, payload) =>
      && IsDataOpcode(b0 % 16)
      && payload != []
      && (key == [] || |key| == 4)
      && (client || key != [])
      && (form == Short ==> |payload| < 126)
      && (form == Medium ==> |payload| < 65536)
      && |payload| < TWO_64
  }

  function SecondOctet(f: Frame): byte
    requires f.DataFrame?
  {
    ((if f.key == [] then 0 else 128) + Code(f.form, |f.payload|)) % 256
  }

  /** The payload as it travels. */
  function Carried(f: Frame): seq<byte>
    requires f.DataFrame?
  {
    if |f.key| == 4 then Masked(f.payload, f.key) else f.payload
  }

  /** A data frame after its two header octets. */
  function AfterHeader(f: Frame): seq<byte>
    requires f.DataFrame?
  {
    BigEndian(ExtendedSize(Code(f.form, |f.payload|)), |f.payload|) + (f.key + Carried(f))
  }

  function Encode(f: Frame): seq<byte> {
    if f.DataFrame? then [f.b0, SecondOctet(f)] + AfterHeader(f) else [f.b0, f.b1]
  }

  /** The frames that spell one message, in order. */
  datatype Spelling = Last(frame: Frame) | Next(frame: Frame, more: Spelling)

  function Size(f: Frame): nat {
    if f.DataFrame? then |f.payload| else 0
  }

  predicate IsFinal(f: Frame) {
    f.DataFrame? && f.b0 >= 128
  }

  /** A message in the receiver's eyes: legal frames, the running size below the limit, and the one
      final data frame at the very end. `have` octets are already accumulated. */
  predicate IsMessage(m: Spelling, client: bool, limit: nat, have: nat) {
    && Legal(m.frame, client)
    && (m.frame.DataFrame? ==> have + Size(m.frame) < limit)
    && (m.Last? <==> IsFinal(m.frame))
    && (m.Next? ==> IsMessage(m.more, client, limit, have + Size(m.frame)))
  }

  function EncodeAll(m: Spelling): seq<byte> {
    Encode(m.frame) + match m case Last(_) => [] case Next(_, more) => EncodeAll(more)
  }

  function Payload(f: Frame): seq<byte> {
    if f.DataFrame? then f.payload else []
  }

  function Payloads(m: Spelling): seq<byte> {
    match m
    case Last(f) => Payload(f)
    case Next(f, more) => Payload(f) + Payloads(more)
  }

  function FrameOpcode(opcode: int, f: Frame): int {
    if f.DataFrame? then OpcodeAfter(opcode, f.b0 % 16) else opcode
  }

  /** The first data opcode that is not a continuation, unless one was already known. */
  function Opcode(opcode: int, m: Spelling): int
    decreases m
  {
    match m
    case Last(f) => FrameOpcode(opcode, f)
    case Next(f, more) => Opcode(FrameOpcode(opcode, f), more)
  }

  function Pings(m: Spelling): nat {
    (if m.frame.PingFrame? then 1 else 0) + if m.Next? then Pings(m.more) else 0
  }

  function Pongs(n: nat): seq<byte> {
    if n == 0 then [] else PONG_FRAME + Pongs(n - 1)
  }

  lemma SecondOctetRead(f: Frame, client: bool)
    requires f.DataFrame? && Legal(f, client)
    ensures SecondOctet(f) % 128 == Code(f.form, |f.payload|)
    ensures SecondOctet(f) >= 128 <==> f.key != []
  {
  }

  /** A header whose extended length, if it announces one, is `octets`. */
  lemma LengthRead(octets: seq<byte>, rest: seq<byte>, net: Net, client: bool, limit: nat, opcode: int,
                   data: seq<byte>, b0: byte, b1: byte, length: nat)
    requires net.open && net.incoming == octets + rest && (client || b1 >= 128)
    requires |octets| == ExtendedSize(b1 % 128)
    requires length == if octets != [] then FromBigEndian(octets) else b1 % 128
    ensures FrameStep(net, client, limit, opcode, data, b0, b1)
         == PayloadStep(net.(incoming := rest), b1 >= 128, length, limit, opcode, b0 % 16, data)
  {
    Sequences.Split(octets, rest);
    if octets == [] {
      Sequences.Empty(rest);
    }
  }

  lemma LengthTaken(f: Frame, rest: seq<byte>, net: Net, client: bool, limit: nat, opcode: int, data: seq<byte>)
    requires f.DataFrame? && Legal(f, client)
    requires net.open
    requires net.incoming == BigEndian(ExtendedSize(Code(f.form, |f.payload|)), |f.payload|) + rest
    ensures FrameStep(net, client, limit, opcode, data, f.b0, SecondOctet(f))
         == PayloadStep(net.(incoming := rest), f.key != [], |f.payload|, limit, opcode, f.b0 % 16, data)
  {
    var size := |f.payload|;
    var octets := BigEndian(ExtendedSize(Code(f.form, size)), size);
    ExtendedLength(f.form, size);
    SecondOctetRead(f, client);
    LengthRead(octets, rest, net, client, limit, opcode, data, f.b0, SecondOctet(f), size);
  }

  lemma StepTaken(f: Frame, rest: seq<byte>, net: Net, client: bool, limit: nat, opcode: int, data: seq<byte>)
    requires f.DataFrame? && Legal(f, client) && limit <= TWO_31
    requires net.open && net.incoming == AfterHeader(f) + rest && |data| + |f.payload| < limit
    ensures FrameStep(net, client, limit, opcode, data, f.b0, SecondOctet(f))
         == Accepted(OpcodeAfter(opcode, f.b0 % 16), data + f.payload, net.(incoming := rest))
  {
    var octets := BigEndian(ExtendedSize(Code(f.form, |f.payload|)), |f.payload|);
    var tail := f.key + (Carried(f) + rest);
    assert net.incoming == octets + tail;
    LengthTaken(f, tail, net, client, limit, opcode, data);
    PayloadTaken(f.key, f.payload, rest, net.(incoming := tail), limit, opcode, f.b0 % 16, data);
  }

  lemma TurnOfData(net: Net, client: bool, limit: nat, opcode: int, data: seq<byte>, b0: byte, b1: byte,
                   tail: seq<byte>)
    requires net.open && net.incoming == [b0, b1] + tail && IsDataOpcode(b0 % 16)
    ensures TurnOf(net, client, limit, opcode, data)
         == match FrameStep(net.(incoming := tail), client, limit, opcode, data, b0, b1)
            case Stop(n) => GiveUp(n)
            case Astray(n) => Lost(n)
            case Accepted(op, d, n) => if b0 >= 128 then Deliver(op, d, n) else Again(op, d, n)
  {
    assert Drained(net, 2) == net.(incoming := tail);
  }

  /** One encoded data frame at the head of the input is taken in whole. */
  lemma FrameTaken(f: Frame, rest: seq<byte>, net: Net, client: bool, limit: nat, opcode: int, data: seq<byte>)
    requires f.DataFrame? && Legal(f, client) && limit <= TWO_31
    requires net.open && net.incoming == Encode(f) + rest && |data| + |f.payload| < limit
    ensures TurnOf(net, client, limit, opcode, data)
         == var op, all := OpcodeAfter(opcode, f.b0 % 16), data + f.payload;
            if f.b0 >= 128 then Deliver(op, all, net.(incoming := rest)) else Again(op, all, net.(incoming := rest))
  {
    var tail := AfterHeader(f) + rest;
    Sequences.Assoc([f.b0, SecondOctet(f)], AfterHeader(f), rest);
    TurnOfData(net, client, limit, opcode, data, f.b0, SecondOctet(f), tail);
    StepTaken(f, rest, net.(incoming := tail), client, limit, opcode, data);
  }

  lemma ExtendedLength(form: LengthForm, size: nat)
    requires form == Short ==> size < 126
    requires form == Medium ==> size < 65536
    requires size < TWO_64
    ensures form != Short ==> FromBigEndian(BigEndian(ExtendedSize(Code(form, size)), size)) == size
  {
    assert Pow256(2) == 65536;
    assert Pow256(4) == TWO_32;
    assert Pow256(6) == 65536 * TWO_32;
    assert Pow256(8) == TWO_64;
    if form != Short {
      BigEndianRoundTrip(ExtendedSize(Code(form, size)), size);
    }
  }

  lemma PayloadTaken(key: seq<byte>, payload: seq<byte>, rest: seq<byte>, net: Net, limit: nat, opcode: int, op: int,
                     data: seq<byte>)
    requires payload != [] && (key == [] || |key| == 4) && limit <= TWO_31 && |data| + |payload| < limit
    requires net.open && net.incoming == key + ((if key == [] then payload else Masked(payload, key)) + rest)
    ensures PayloadStep(net, key != [], |payload|, limit, opcode, op, data)
         == Accepted(OpcodeAfter(opcode, op), data + payload, net.(incoming := rest))
  {
    var body := if key == [] then payload else Masked(payload, key);
    assert net.incoming[|key|..] == body + rest;
    assert net.incoming[..|key|] == key;
    assert (body + rest)[..|body|] == body;
    assert (body + rest)[|body|..] == rest;
    if key != [] {
      MaskedTwice(payload, key);
    }
  }

  predicate IsMessageFrom(m: Spelling, rest: seq<byte>, net: Net, client: bool, limit: nat, have: nat) {
    && IsMessage(m, client, limit, have)
    && net.incoming == EncodeAll(m) + rest
    && net.open && 2 * Pings(m) <= net.room
  }

  /** The receive state after one frame of the grammar. */
  function AfterFrame(f: Frame, rest: seq<byte>, net: Net, opcode: int, data: seq<byte>): Turn
    requires f.PingFrame? ==> 2 <= net.room
  {
    var op, all := FrameOpcode(opcode, f), data + Payload(f);
    var after := net.(incoming := rest);
    var n := if f.PingFrame? then after.(written := net.written + PONG_FRAME, room := net.room - 2) else after;
    if IsFinal(f) then Deliver(op, all, n) else Again(op, all, n)
  }

  lemma HeadTaken(f: Frame, rest: seq<byte>, net: Net, client: bool, limit: nat, opcode: int, data: seq<byte>)
    requires limit <= TWO_31 && Legal(f, client) && net.open && net.incoming == Encode(f) + rest
    requires f.DataFrame? ==> |data| + |f.payload| < limit
    requires f.PingFrame? ==> 2 <= net.room
    ensures TurnOf(net, client, limit, opcode, data) == AfterFrame(f, rest, net, opcode, data)
  {
    if f.DataFrame? {
      FrameTaken(f, rest, net, client, limit, opcode, data);
    } else {
      assert Drained(net, 2) == net.(incoming := rest);
      assert PONG_FRAME[..|PONG_FRAME|] == PONG_FRAME;
      Sequences.Empty(data);
    }
  }

  /** What a message means: the first opcode, the payloads put together, one pong for each ping and
      nothing else written, and `rest` left unread. */
  function Meaning(m: Spelling, rest: seq<byte>, net: Net, opcode: int, data: seq<byte>): (Received, Net)
    requires 2 * Pings(m) <= net.room
  {
    (Message(Opcode(opcode, m), data + Payloads(m)),
     Net(rest, net.written + Pongs(Pings(m)), net.room - 2 * Pings(m), net.open))
  }

  lemma MeaningOfMore(f: Frame, more: Spelling, tail: seq<byte>, rest: seq<byte>, net: Net, opcode: int,
                      data: seq<byte>)
    requires !IsFinal(f) && 2 * Pings(Next(f, more)) <= net.room
    ensures var turn := AfterFrame(f, tail, net, opcode, data);
            && 2 * Pings(more) <= turn.net.room
            && Meaning(Next(f, more), rest, net, opcode, data) == Meaning(more, rest, turn.net, turn.opcode, turn.data)
  {
    Sequences.Assoc(data, Payload(f), Payloads(more));
    Sequences.Assoc(net.written, PONG_FRAME, Pongs(Pings(more)));
  }

  lemma TurnKeeps(f: Frame, tail: seq<byte>, net: Net, opcode: int, data: seq<byte>)
    requires f.PingFrame? ==> 2 <= net.room
    ensures var turn := AfterFrame(f, tail, net, opcode, data);
            && |turn.data| == |data| + Size(f)
            && turn.net.incoming == tail && turn.net.open == net.open
            && turn.net.room == net.room - if f.PingFrame? then 2 else 0
  {
  }

  /** `f` can stand in front of the rest of a message. */
  predicate Leads(f: Frame, tail: seq<byte>, net: Net, client: bool, limit: nat, have: nat) {
    && net.open && Legal(f, client) && !IsFinal(f)
    && (f.DataFrame? ==> have + Size(f) < limit)
    && (f.PingFrame? ==> 2 <= net.room)
    && net.incoming == Encode(f) + tail
  }

  lemma LeadsMessage(f: Frame, more: Spelling, rest: seq<byte>, net: Net, client: bool, limit: nat, have: nat)
    ensures IsMessageFrom(Next(f, more), rest, net, client, limit, have)
       <==> && Leads(f, EncodeAll(more) + rest, net, client, limit, have)
            && IsMessage(more, client, limit, have + Size(f))
            && 2 * Pings(more) <= net.room - if f.PingFrame? then 2 else 0
  {
    Sequences.Assoc(Encode(f), EncodeAll(more), rest);
  }

  lemma RestOfMessage(more: Spelling, rest: seq<byte>, net: Net, client: bool, limit: nat, have: nat)
    requires net.open && net.incoming == EncodeAll(more) + rest
    ensures IsMessageFrom(more, rest, net, client, limit, have)
       <==> IsMessage(more, client, limit, have) && 2 * Pings(more) <= net.room
  {
  }

  /** A message that begins with `f`: the rest of it is one in the state that `f` leaves. */
  ghost predicate Continues(f: Frame, more: Spelling, rest: seq<byte>, net: Net, client: bool, limit: nat, opcode: int,
                            data: seq<byte>)
    requires f.PingFrame? ==> 2 <= net.room
  {
    var turn := AfterFrame(f, EncodeAll(more) + rest, net, opcode, data);
    IsMessageFrom(more, rest, turn.net, client, limit, |turn.data|)
  }

  lemma ContinuesExactly(f: Frame, more: Spelling, rest: seq<byte>, net: Net, client: bool, limit: nat, opcode: int,
                         data: seq<byte>)
    requires net.open && (f.PingFrame? ==> 2 <= net.room)
    ensures Continues(f, more, rest, net, client, limit, opcode, data)
       <==> IsMessage(more, client, limit, |data| + Size(f)) && 2 * Pings(more) <= net.room - if f.PingFrame? then 2 else 0
  {
    var turn := AfterFrame(f, EncodeAll(more) + rest, net, opcode, data);
    TurnKeeps(f, EncodeAll(more) + rest, net, opcode, data);
    RestOfMessage(more, rest, turn.net, client, limit, |turn.data|);
  }

  lemma MessageTail(f: Frame, more: Spelling, rest: seq<byte>, net: Net, client: bool, limit: nat, opcode: int,
                    data: seq<byte>)
    ensures IsMessageFrom(Next(f, more), rest, net, client, limit, |data|)
       <==> && Leads(f, EncodeAll(more) + rest, net, client, limit, |data|)
            && Continues(f, more, rest, net, client, limit, opcode, data)
  {
    LeadsMessage(f, more, rest, net, client, limit, |data|);
    if Leads(f, EncodeAll(more) + rest, net, client, limit, |data|) {
      ContinuesExactly(f, more, rest, net, client, limit, opcode, data);
    }
  }

  lemma MessageEnd(f: Frame, rest: seq<byte>, net: Net, client: bool, limit: nat, opcode: int, data: seq<byte>)
    ensures IsMessageFrom(Last(f), rest, net, client, limit, |data|)
       <==> && net.open && Legal(f, client) && IsFinal(f) && |data| + Size(f) < limit
            && net.incoming == Encode(f) + rest
    ensures IsFinal(f) ==> var turn := AfterFrame(f, rest, net, opcode, data);
                           Meaning(Last(f), rest, net, opcode, data) == (Message(turn.opcode, turn.data), turn.net)
  {
    Sequences.Empty(Encode(f));
    Sequences.Empty(net.written);
  }

  /** Every message of the grammar is received with its meaning. */
  lemma {:induction false} RecvAccepts(m: Spelling, rest: seq<byte>, net: Net, client: bool, limit: nat, opcode: int,
                                       data: seq<byte>)
    requires limit <= TWO_31 && IsMessageFrom(m, rest, net, client, limit, |data|)
    ensures Recv(net, client, limit, opcode, data) == Meaning(m, rest, net, opcode, data)
    decreases m
  {
    match m
    case Last(f) =>
      MessageEnd(f, rest, net, client, limit, opcode, data);
      HeadTaken(f, rest, net, client, limit, opcode, data);
    case Next(f, more) =>
      var tail := EncodeAll(more) + rest;
      MessageTail(f, more, rest, net, client, limit, opcode, data);
      HeadTaken(f, tail, net, client, limit, opcode, data);
      MeaningOfMore(f, more, tail, rest, net, opcode, data);
      var turn := AfterFrame(f, tail, net, opcode, data);
      RecvAccepts(more, rest, turn.net, client, limit, turn.opcode, turn.data);
  }

  lemma PayloadFound(net: Net, masked: bool, length: nat, limit: nat, opcode: int, op: int, data: seq<byte>)
    returns (key: seq<byte>, payload: seq<byte>, carried: seq<byte>, rest: seq<byte>)
    requires limit <= TWO_31 && |data| < TWO_31 && length < TWO_64
    requires PayloadStep(net, masked, length, limit, opcode, op, data).Accepted?
    ensures |key| == if masked then 4 else 0
    ensures payload != [] && |payload| == length && |data| + length < limit
    ensures carried == if masked then Masked(payload, key) else payload
    ensures net.incoming == key + (carried + rest)
  {
    WrappedLengthFails(|data|, length, limit);
    var body := if masked then Drained(net, 4) else net;
    key := if masked then net.incoming[..4] else [];
    Sequences.Cut(net.incoming, |key|);
    carried, rest := body.incoming[..length], body.incoming[length..];
    Sequences.Cut(body.incoming, length);
    payload := if masked then Masked(carried, key) else carried;
    if masked {
      MaskedTwice(carried, key);
    }
  }

  lemma StepFound(net: Net, client: bool, limit: nat, opcode: int, data: seq<byte>, b0: byte, b1: byte)
    returns (f: Frame, rest: seq<byte>)
    requires limit <= TWO_31 && |data| < TWO_31 && IsDataOpcode(b0 % 16)
    requires FrameStep(net, client, limit, opcode, data, b0, b1).Accepted?
    ensures f.DataFrame? && Legal(f, client) && f.b0 == b0 && SecondOctet(f) == b1
    ensures |data| + |f.payload| < limit && net.incoming == AfterHeader(f) + rest
  {
    var code := b1 % 128;
    var n := ExtendedSize(code);
    var octets := net.incoming[..n];
    var length := if n > 0 then FromBigEndian(octets) else code;
    Sequences.Cut(net.incoming, n);
    LengthCanonical(octets, code);
    var atKey := if n > 0 then Drained(net, n) else net;
    var key, payload, carried, tail := PayloadFound(atKey, b1 >= 128, length, limit, opcode, b0 % 16, data);
    f, rest := FrameBuilt(b0, b1, octets, key, payload), tail;
    assert AfterHeader(f) == octets + (key + carried);
    Sequences.Assoc(key, carried, rest);
    Sequences.Assoc(octets, key + carried, rest);
  }

  function FrameBuilt(b0: byte, b1: byte, octets: seq<byte>, key: seq<byte>, payload: seq<byte>): (f: Frame)
    requires IsDataOpcode(b0 % 16) && payload != [] && |octets| == ExtendedSize(b1 % 128)
    requires |key| == if b1 >= 128 then 4 else 0
    requires |payload| == if octets != [] then FromBigEndian(octets) else b1 % 128
    ensures f.DataFrame? && Legal(f, b1 < 128) && f.b0 == b0 && SecondOctet(f) == b1
    ensures f.payload == payload && f.key == key
    ensures AfterHeader(f) == octets + (key + Carried(f))
  {
    LengthCanonical(octets, b1 % 128);
    DataFrame(b0, if |octets| == 2 then Medium else if |octets| == 8 then Long else Short, key, payload)
  }

  lemma LengthCanonical(octets: seq<byte>, code: byte)
    requires code < 128 && |octets| == ExtendedSize(code)
    ensures |octets| > 0 ==> BigEndian(|octets|, FromBigEndian(octets)) == octets
    ensures |octets| > 0 ==> FromBigEndian(octets) < TWO_64
    ensures |octets| == 2 ==> FromBigEndian(octets) < 65536
  {
    if |octets| > 0 {
      LengthBound(octets);
      BigEndianInverse(octets);
      FromBigEndianBound(octets);
      assert Pow256(2) == 65536;
    }
  }

  /** The data frame the receiver has just accepted was a legal one. */
  lemma FrameFound(net: Net, client: bool, limit: nat, opcode: int, data: seq<byte>) returns (f: Frame, rest: seq<byte>)
    requires limit <= TWO_31 && |data| < TWO_31 && |net.incoming| >= 2 && IsDataOpcode(net.incoming[0] % 16)
    requires !TurnOf(net, client, limit, opcode, data).GiveUp?
    ensures f.DataFrame? && Legal(f, client) && f.b0 == net.incoming[0]
    ensures |data| + |f.payload| < limit && net.incoming == Encode(f) + rest
  {
    var b0, b1, tail := net.incoming[0], net.incoming[1], net.incoming[2..];
    Sequences.Cut(net.incoming, 2);
    TurnOfData(net, client, limit, opcode, data, b0, b1, tail);
    f, rest := StepFound(net.(incoming := tail), client, limit, opcode, data, b0, b1);
    Sequences.Assoc([b0, b1], AfterHeader(f), rest);
  }

  /** Whatever the receiver does not give up on is a legal frame, pings included. */
  lemma HeadFound(net: Net, client: bool, limit: nat, opcode: int, data: seq<byte>) returns (f: Frame, rest: seq<byte>)
    requires limit <= TWO_31 && |data| < TWO_31 && !TurnOf(net, client, limit, opcode, data).GiveUp?
    ensures Legal(f, client) && net.open && net.incoming == Encode(f) + rest
    ensures f.DataFrame? ==> |data| + |f.payload| < limit
    ensures f.PingFrame? ==> 2 <= net.room
  {
    var b0, b1 := net.incoming[0], net.incoming[1];
    if IsDataOpcode(b0 % 16) {
      f, rest := FrameFound(net, client, limit, opcode, data);
    } else {
      f := if b0 % 16 == PING then PingFrame(b0, b1) else SkippedFrame(b0, b1);
      rest := net.incoming[2..];
      Sequences.Cut(net.incoming, 2);
    }
  }

  /** Nothing else is received: a delivered message was spelled by frames of the grammar. */
  lemma {:induction false} RecvFinds(net: Net, client: bool, limit: nat, opcode: int, data: seq<byte>)
    returns (m: Spelling, rest: seq<byte>)
    requires limit <= TWO_31 && |data| < TWO_31 && Recv(net, client, limit, opcode, data).0.Message?
    ensures IsMessageFrom(m, rest, net, client, limit, |data|)
    decreases |net.incoming|
  {
    var f, tail := HeadFound(net, client, limit, opcode, data);
    HeadTaken(f, tail, net, client, limit, opcode, data);
    var turn := AfterFrame(f, tail, net, opcode, data);
    if turn.Deliver? {
      m, rest := Last(f), tail;
      MessageEnd(f, rest, net, client, limit, opcode, data);
    } else {
      var more;
      more, rest := RecvFinds(turn.net, client, limit, turn.opcode, turn.data);
      m := Next(f, more);
      MessageTail(f, more, rest, net, client, limit, opcode, data);
    }
  }

  /** The receiver delivers a message exactly when its input starts with one and the transport takes
      a pong for every ping in it. */
  lemma RecvExactly(net: Net, client: bool, limit: nat)
    requires limit <= TWO_31
    ensures Recv(net, client, limit, 0, []).0.Message?
       <==> exists m, rest :: IsMessageFrom(m, rest, net, client, limit, 0)
  {
    if Recv(net, client, limit, 0, []).0.Message? {
      var m, rest := RecvFinds(net, client, limit, 0, []);
    }
    if m, rest :| IsMessageFrom(m, rest, net, client, limit, 0) {
      RecvAccepts(m, rest, net, client, limit, 0, []);
    }
  }
}
