/** Both ends together: whole conversations sent by WSSendMessage, WSPing and WSPong and received by
    WSRecvMessage, and the echo fast path against receiving and sending. */
module WebSocketTalk {
  import opened Bytes
  import opened Streams
  import opened WebSocket
  import opened WebSocketWire
  import Sequences

  /** The calls that send one message: fragments with control frames anywhere in between. The keys
      are what `rand()` supplies; only a client uses them. */
  datatype Talk =
    | Finish(data: seq<byte>, key: seq<byte>)
    | Fragment(data: seq<byte>, key: seq<byte>, more: Talk)
    | Ping(more: Talk)
    | Pong(more: Talk)

  predicate Speakable(t: Talk) {
    match t
    case Finish(d, k) => |d| < TWO_31 && |k| == 4
    case Fragment(d, k, more) => |d| < TWO_31 && |k| == 4 && Speakable(more)
    case Ping(more) => Speakable(more)
    case Pong(more) => Speakable(more)
  }

  /** No fragment is empty. */
  predicate NonEmpty(t: Talk) {
    match t
    case Finish(d, _) => d != []
    case Fragment(d, _, more) => d != [] && NonEmpty(more)
    case Ping(more) => NonEmpty(more)
    case Pong(more) => NonEmpty(more)
  }

  predicate Sendable(t: Talk) {
    Speakable(t) && NonEmpty(t)
  }

  function Said(t: Talk): seq<byte> {
    match t
    case Finish(d, _) => d
    case Fragment(d, _, more) => d + Said(more)
    case Ping(more) => Said(more)
    case Pong(more) => Said(more)
  }

  function PingsIn(t: Talk): nat {
    match t
    case Finish(_, _) => 0
    case Fragment(_, _, more) => PingsIn(more)
    case Ping(more) => 1 + PingsIn(more)
    case Pong(more) => PingsIn(more)
  }

  /** The sender's stream after the calls, made in order. The first fragment carries the message's
      opcode, the later ones CONTINUE, and only the last is final. */
  function Speak(net: Net, client: bool, opcode: byte, t: Talk): Net
    requires Speakable(t)
    decreases t
  {
    match t
    case Finish(d, k) => Send(net, client, true, opcode, d, k)
    case Fragment(d, k, more) => Speak(Send(net, client, false, opcode, d, k), client, CONTINUE, more)
    case Ping(more) => Speak(Control(net, PING_FRAME), client, opcode, more)
    case Pong(more) => Speak(Control(net, PONG_FRAME), client, opcode, more)
  }

  function FrameOf(client: bool, fin: bool, opcode: byte, data: seq<byte>, key: seq<byte>): Frame
    requires opcode < 16
  {
    DataFrame((if fin then 128 else 0) + opcode,
              if |data| < 126 then Short else if |data| < 65536 then Medium else Long,
              if client then key else [], data)
  }

  function Spell(client: bool, opcode: byte, t: Talk): Spelling
    requires opcode < 16
    decreases t
  {
    match t
    case Finish(d, k) => Last(FrameOf(client, true, opcode, d, k))
    case Fragment(d, k, more) => Next(FrameOf(client, false, opcode, d, k), Spell(client, CONTINUE, more))
    case Ping(more) => Next(PingFrame(0x89, 0), Spell(client, opcode, more))
    case Pong(more) => Next(SkippedFrame(0x8A, 0), Spell(client, opcode, more))
  }

  /** The sender's octets are the encoding of the frame they stand for. */
  lemma FrameOctetsEncode(client: bool, fin: bool, opcode: byte, data: seq<byte>, key: seq<byte>)
    requires opcode < 16 && |key| == 4
    ensures FrameOctets(client, fin, opcode, data, key) == Encode(FrameOf(client, fin, opcode, data, key))
  {
    var f := FrameOf(client, fin, opcode, data, key);
    BodyCarried(client, fin, opcode, data, key);
    var octets := BigEndian(ExtendedSize(LengthCode(|data|)), |data|);
    Sequences.Assoc([f.b0, SecondOctet(f)], octets, f.key + Carried(f));
  }

  lemma BodyCarried(client: bool, fin: bool, opcode: byte, data: seq<byte>, key: seq<byte>)
    requires opcode < 16 && |key| == 4
    ensures var f := FrameOf(client, fin, opcode, data, key);
            && Body(client, data, key) == f.key + Carried(f)
            && Code(f.form, |data|) == LengthCode(|data|)
            && Header(fin, opcode, client, LengthCode(|data|)) == [f.b0, SecondOctet(f)]
  {
    Sequences.Empty(data);
  }

  lemma SentWhole(net: Net, octets: seq<byte>)
    requires Writable(net, octets)
    ensures Sent(net, octets) == net.(written := net.written + octets, room := net.room - |octets|)
  {
    assert octets[..|octets|] == octets;
  }

  /** The effect of one successful call. */
  lemma SendSpells(net: Net, client: bool, fin: bool, opcode: byte, data: seq<byte>, key: seq<byte>)
    requires opcode < 16 && |key| == 4 && 0 < |data| < TWO_31
    requires net.open && |Encode(FrameOf(client, fin, opcode, data, key))| <= net.room
    ensures var octets := Encode(FrameOf(client, fin, opcode, data, key));
            Send(net, client, fin, opcode as int, data, key) ==
              net.(written := net.written + octets, room := net.room - |octets|)
  {
    FrameOctetsEncode(client, fin, opcode, data, key);
    SentWhole(net, FrameOctets(client, fin, opcode, data, key));
  }

  lemma ControlSpells(net: Net)
    requires net.open && 2 <= net.room
    ensures Control(net, PING_FRAME) == net.(written := net.written + Encode(PingFrame(0x89, 0)), room := net.room - 2)
    ensures Control(net, PONG_FRAME)
            == net.(written := net.written + Encode(SkippedFrame(0x8A, 0)), room := net.room - 2)
  {
    SentWhole(net, PING_FRAME);
    SentWhole(net, PONG_FRAME);
  }

  /** With room on the transport, the calls put exactly the spelled frames on the wire. */
  lemma {:induction false} SpeakSpells(net: Net, client: bool, opcode: byte, t: Talk)
    requires opcode < 16 && Sendable(t) && net.open && |EncodeAll(Spell(client, opcode, t))| <= net.room
    ensures var octets := EncodeAll(Spell(client, opcode, t));
            Speak(net, client, opcode, t) == net.(written := net.written + octets, room := net.room - |octets|)
    decreases t
  {
    match t
    case Finish(d, k) =>
      SendSpells(net, client, true, opcode, d, k);
      Sequences.Empty(Encode(FrameOf(client, true, opcode, d, k)));
    case Fragment(d, k, more) =>
      SendSpells(net, client, false, opcode, d, k);
      SpeakSpells(Send(net, client, false, opcode as int, d, k), client, CONTINUE, more);
      Sequences.Assoc(net.written, Encode(FrameOf(client, false, opcode, d, k)),
                      EncodeAll(Spell(client, CONTINUE, more)));
    case Ping(more) =>
      ControlSpells(net);
      SpeakSpells(Control(net, PING_FRAME), client, opcode, more);
      Sequences.Assoc(net.written, Encode(PingFrame(0x89, 0)), EncodeAll(Spell(client, opcode, more)));
    case Pong(more) =>
      ControlSpells(net);
      SpeakSpells(Control(net, PONG_FRAME), client, opcode, more);
      Sequences.Assoc(net.written, Encode(SkippedFrame(0x8A, 0)), EncodeAll(Spell(client, opcode, more)));
  }

  lemma FrameOfTalk(client: bool, fin: bool, opcode: byte, d: seq<byte>, k: seq<byte>, known: int)
    requires IsDataOpcode(opcode as int) && 0 < |d| < TWO_31 && |k| == 4
    ensures var f := FrameOf(client, fin, opcode, d, k);
            && Legal(f, !client) && (IsFinal(f) <==> fin) && Size(f) == |d| && Payload(f) == d
            && FrameOpcode(known, f) == OpcodeAfter(known, opcode as int)
  {
  }

  /** What is spelled for a conversation is a message to the other end, and means what was said. */
  lemma {:induction false} SpellIsMessage(client: bool, opcode: byte, t: Talk, limit: nat, have: nat, known: int)
    requires IsDataOpcode(opcode as int) && Sendable(t) && have + |Said(t)| < limit
    requires opcode == CONTINUE ==> known != 0
    requires opcode != CONTINUE ==> known == 0
    ensures IsMessage(Spell(client, opcode, t), !client, limit, have)
    ensures Payloads(Spell(client, opcode, t)) == Said(t)
    ensures Opcode(known, Spell(client, opcode, t)) == if known != 0 then known else opcode as int
    ensures Pings(Spell(client, opcode, t)) == PingsIn(t)
    decreases t
  {
    match t
    case Finish(d, k) =>
      FrameOfTalk(client, true, opcode, d, k, known);
    case Fragment(d, k, more) =>
      FrameOfTalk(client, false, opcode, d, k, known);
      SpellIsMessage(client, CONTINUE, more, limit, have + |d|, if known != 0 then known else opcode as int);
    case Ping(more) =>
      SpellIsMessage(client, opcode, more, limit, have, known);
    case Pong(more) =>
      SpellIsMessage(client, opcode, more, limit, have, known);
  }

  /** What the sender appended to its output. */
  function OnWire(net: Net, client: bool, opcode: byte, t: Talk): seq<byte>
    requires opcode < 16 && Speakable(t)
  {
    var after := Speak(net, client, opcode, t).written;
    if |net.written| <= |after| then after[|net.written|..] else []
  }

  lemma SpelledMeaning(receiver: Net, client: bool, opcode: byte, t: Talk, rest: seq<byte>, limit: nat)
    requires (opcode == TEXT_FRAME || opcode == BIN_FRAME) && Sendable(t) && |Said(t)| < limit
    requires receiver.open && 2 * PingsIn(t) <= receiver.room
    requires receiver.incoming == EncodeAll(Spell(client, opcode, t)) + rest
    ensures IsMessageFrom(Spell(client, opcode, t), rest, receiver, !client, limit, 0)
    ensures Meaning(Spell(client, opcode, t), rest, receiver, 0, []) == Heard(receiver, opcode, t, rest)
  {
    SpellIsMessage(client, opcode, t, limit, 0, 0);
    Sequences.Empty(Said(t));
  }

  /** What one receive call should make of a conversation: the message, one pong written for each
      ping, and the octets after it still unread. */
  function Heard(receiver: Net, opcode: byte, t: Talk, rest: seq<byte>): (Received, Net)
    requires 2 * PingsIn(t) <= receiver.room
  {
    (Message(opcode as int, Said(t)),
     Net(rest, receiver.written + Pongs(PingsIn(t)), receiver.room - 2 * PingsIn(t), receiver.open))
  }

  lemma RecvSpelled(receiver: Net, client: bool, opcode: byte, t: Talk, rest: seq<byte>, limit: nat)
    requires (opcode == TEXT_FRAME || opcode == BIN_FRAME) && Sendable(t) && |Said(t)| < limit <= TWO_31
    requires receiver.open && 2 * PingsIn(t) <= receiver.room
    requires receiver.incoming == EncodeAll(Spell(client, opcode, t)) + rest
    ensures Recv(receiver, !client, limit, 0, []) == Heard(receiver, opcode, t, rest)
  {
    SpelledMeaning(receiver, client, opcode, t, rest, limit);
    RecvAccepts(Spell(client, opcode, t), rest, receiver, !client, limit, 0, []);
  }

  // ------------------------------------------------------------------ conversations that do not come back

  /** The octets of the calls: the sender closes at an empty fragment and sends nothing after it. */
  function Wire(client: bool, opcode: byte, t: Talk): seq<byte>
    requires opcode < 16
    decreases t
  {
    match t
    case Finish(d, k) => Encode(FrameOf(client, true, opcode, d, k))
    case Fragment(d, k, more) =>
      Encode(FrameOf(client, false, opcode, d, k)) + if d == [] then [] else Wire(client, CONTINUE, more)
    case Ping(more) => PING_FRAME + Wire(client, opcode, more)
    case Pong(more) => PONG_FRAME + Wire(client, opcode, more)
  }

  lemma {:induction false} SpeakClosed(net: Net, client: bool, opcode: byte, t: Talk)
    requires Speakable(t) && !net.open
    ensures Speak(net, client, opcode, t).written == net.written
    decreases t
  {
    match t
    case Finish(d, k) =>
    case Fragment(d, k, more) => SpeakClosed(Send(net, client, false, opcode as int, d, k), client, CONTINUE, more);
    case Ping(more) => SpeakClosed(Control(net, PING_FRAME), client, opcode, more);
    case Pong(more) => SpeakClosed(Control(net, PONG_FRAME), client, opcode, more);
  }

  /** The effect of one call on the wire, and whether the stream is still open after it. */
  lemma SendWrites(net: Net, client: bool, fin: bool, opcode: byte, data: seq<byte>, key: seq<byte>, after: Net)
    requires opcode < 16 && |key| == 4 && |data| < TWO_31
    requires net.open && |Encode(FrameOf(client, fin, opcode, data, key))| <= net.room
    requires after == Send(net, client, fin, opcode as int, data, key)
    ensures var octets := Encode(FrameOf(client, fin, opcode, data, key));
            after == Net(net.incoming, net.written + octets, net.room - |octets|, data != [])
  {
    FrameOctetsEncode(client, fin, opcode, data, key);
    SentWhole(net, FrameOctets(client, fin, opcode as int, data, key));
  }

  lemma {:induction false} SpeakWrites(net: Net, client: bool, opcode: byte, t: Talk)
    requires opcode < 16 && Speakable(t) && net.open && |Wire(client, opcode, t)| <= net.room
    ensures Speak(net, client, opcode, t).written == net.written + Wire(client, opcode, t)
    decreases t
  {
    match t
    case Finish(d, k) =>
      SendWrites(net, client, true, opcode, d, k, Send(net, client, true, opcode as int, d, k));
    case Fragment(d, k, more) =>
      var head, after := Encode(FrameOf(client, false, opcode, d, k)), Send(net, client, false, opcode as int, d, k);
      SendWrites(net, client, false, opcode, d, k, after);
      if d == [] {
        SpeakClosed(after, client, CONTINUE, more);
        Sequences.Empty(head);
      } else {
        SpeakWrites(after, client, CONTINUE, more);
        Sequences.Assoc(net.written, head, Wire(client, CONTINUE, more));
      }
    case Ping(more) =>
      ControlSpells(net);
      SpeakWrites(Control(net, PING_FRAME), client, opcode, more);
      Sequences.Assoc(net.written, PING_FRAME, Wire(client, opcode, more));
    case Pong(more) =>
      ControlSpells(net);
      SpeakWrites(Control(net, PONG_FRAME), client, opcode, more);
      Sequences.Assoc(net.written, PONG_FRAME, Wire(client, opcode, more));
  }

  lemma {:induction false} WireSpells(client: bool, opcode: byte, t: Talk)
    requires opcode < 16 && NonEmpty(t)
    ensures Wire(client, opcode, t) == EncodeAll(Spell(client, opcode, t))
    decreases t
  {
    match t
    case Finish(d, k) => Sequences.Empty(Encode(FrameOf(client, true, opcode, d, k)));
    case Fragment(d, k, more) => WireSpells(client, CONTINUE, more);
    case Ping(more) => WireSpells(client, opcode, more);
    case Pong(more) => WireSpells(client, opcode, more);
  }

  /** Two header octets with the length 0, masked or not: the receiver gives up. */
  lemma ZeroStops(net: Net, client: bool, limit: nat, opcode: int, data: seq<byte>, b0: byte, b1: byte)
    requires b1 % 128 == 0 && |data| < TWO_31
    ensures FrameStep(net, client, limit, opcode, data, b0, b1).Stop?
  {
  }

  lemma EmptyStops(net: Net, client: bool, limit: nat, opcode: int, data: seq<byte>, f: Frame, rest: seq<byte>)
    requires f.DataFrame? && f.payload == [] && f.form == Short && IsDataOpcode(f.b0 % 16) && |data| < TWO_31
    requires net.open && net.incoming == Encode(f) + rest
    ensures TurnOf(net, client, limit, opcode, data).GiveUp?
  {
    var tail := AfterHeader(f) + rest;
    Sequences.Assoc([f.b0, SecondOctet(f)], AfterHeader(f), rest);
    ZeroStops(net.(incoming := tail), client, limit, opcode, data, f.b0, SecondOctet(f));
    TurnOfData(net, client, limit, opcode, data, f.b0, SecondOctet(f), tail);
  }

  lemma OverLimitStops(net: Net, masked: bool, length: nat, limit: nat, opcode: int, op: int, data: seq<byte>)
    requires |data| < limit <= TWO_31 && length < TWO_31 && |data| + length >= limit
    ensures PayloadStep(net, masked, length, limit, opcode, op, data).Stop?
  {
  }

  /** The receiver gives up at a frame that brings the message to the limit. */
  lemma LimitStops(net: Net, client: bool, limit: nat, opcode: int, data: seq<byte>, f: Frame, rest: seq<byte>)
    requires f.DataFrame? && Legal(f, client) && |data| < limit <= TWO_31 && |f.payload| < TWO_31
    requires net.open && net.incoming == Encode(f) + rest && |data| + |f.payload| >= limit
    ensures TurnOf(net, client, limit, opcode, data).GiveUp?
  {
    var tail := AfterHeader(f) + rest;
    Sequences.Assoc([f.b0, SecondOctet(f)], AfterHeader(f), rest);
    StepStops(net.(incoming := tail), client, limit, opcode, data, f, rest);
    TurnOfData(net, client, limit, opcode, data, f.b0, SecondOctet(f), tail);
  }

  lemma StepStops(net: Net, client: bool, limit: nat, opcode: int, data: seq<byte>, f: Frame, rest: seq<byte>)
    requires f.DataFrame? && Legal(f, client) && |data| < limit <= TWO_31 && |f.payload| < TWO_31
    requires net.open && net.incoming == AfterHeader(f) + rest && |data| + |f.payload| >= limit
    ensures FrameStep(net, client, limit, opcode, data, f.b0, SecondOctet(f)).Stop?
  {
    var octets := BigEndian(ExtendedSize(Code(f.form, |f.payload|)), |f.payload|);
    var tail := (f.key + Carried(f)) + rest;
    Sequences.Assoc(octets, f.key + Carried(f), rest);
    LengthTaken(f, tail, net, client, limit, opcode, data);
    OverLimitStops(net.(incoming := tail), f.key != [], |f.payload|, limit, opcode, f.b0 % 16, data);
  }

  /** A fragment at the head of the input is taken, or the receiver closes at it. */
  lemma FragmentHeard(net: Net, client: bool, fin: bool, op: byte, d: seq<byte>, k: seq<byte>, rest: seq<byte>,
                      limit: nat, opcode: int, data: seq<byte>)
    requires IsDataOpcode(op as int) && |k| == 4 && |d| < TWO_31 && |data| < limit <= TWO_31
    requires net.open && net.incoming == Encode(FrameOf(client, fin, op, d, k)) + rest
    ensures d == [] || |data| + |d| >= limit ==> TurnOf(net, !client, limit, opcode, data).GiveUp?
    ensures d != [] && |data| + |d| < limit ==>
      TurnOf(net, !client, limit, opcode, data)
        == AfterFrame(FrameOf(client, fin, op, d, k), rest, net, opcode, data)
  {
    var f := FrameOf(client, fin, op, d, k);
    if d == [] {
      EmptyStops(net, !client, limit, opcode, data, f, rest);
    } else if |data| + |d| >= limit {
      LimitStops(net, !client, limit, opcode, data, f, rest);
    } else {
      HeadTaken(f, rest, net, !client, limit, opcode, data);
    }
  }

  /** A conversation with an empty fragment, or as long as the limit, ends the connection. */
  lemma {:induction false} NotHeard(net: Net, client: bool, op: byte, t: Talk, rest: seq<byte>, limit: nat,
                                    opcode: int, data: seq<byte>)
    requires IsDataOpcode(op as int) && Speakable(t) && |data| < limit <= TWO_31
    requires !(NonEmpty(t) && |data| + |Said(t)| < limit)
    requires net.open && 2 * PingsIn(t) <= net.room && net.incoming == Wire(client, op, t) + rest
    ensures Recv(net, !client, limit, opcode, data).0.Closed?
    decreases t
  {
    match t
    case Finish(d, k) =>
      FragmentHeard(net, client, true, op, d, k, rest, limit, opcode, data);
    case Fragment(d, k, more) =>
      var f := FrameOf(client, false, op, d, k);
      var tail := (if d == [] then [] else Wire(client, CONTINUE, more)) + rest;
      Sequences.Assoc(Encode(f), if d == [] then [] else Wire(client, CONTINUE, more), rest);
      FragmentHeard(net, client, false, op, d, k, tail, limit, opcode, data);
      if d != [] && |data| + |d| < limit {
        var turn := AfterFrame(f, tail, net, opcode, data);
        NotHeard(turn.net, client, CONTINUE, more, rest, limit, turn.opcode, turn.data);
      }
    case Ping(more) =>
      var tail := Wire(client, op, more) + rest;
      Sequences.Assoc(PING_FRAME, Wire(client, op, more), rest);
      HeadTaken(PingFrame(0x89, 0), tail, net, !client, limit, opcode, data);
      var turn := AfterFrame(PingFrame(0x89, 0), tail, net, opcode, data);
      NotHeard(turn.net, client, op, more, rest, limit, turn.opcode, turn.data);
    case Pong(more) =>
      var tail := Wire(client, op, more) + rest;
      Sequences.Assoc(PONG_FRAME, Wire(client, op, more), rest);
      HeadTaken(SkippedFrame(0x8A, 0), tail, net, !client, limit, opcode, data);
      var turn := AfterFrame(SkippedFrame(0x8A, 0), tail, net, opcode, data);
      NotHeard(turn.net, client, op, more, rest, limit, turn.opcode, turn.data);
  }

  /** One receive call takes back exactly one conversation, if and only if no fragment is empty and the
      whole stays below the limit. */
  lemma ConversationRoundTrip(sender: Net, receiver: Net, client: bool, opcode: byte, t: Talk, rest: seq<byte>,
                              limit: nat)
    requires (opcode == TEXT_FRAME || opcode == BIN_FRAME) && Speakable(t)
    requires sender.open && |Wire(client, opcode, t)| <= sender.room
    requires limit <= TWO_31
    requires receiver.open && 2 * PingsIn(t) <= receiver.room
    requires receiver.incoming == OnWire(sender, client, opcode, t) + rest
    ensures Recv(receiver, !client, limit, 0, []) == Heard(receiver, opcode, t, rest)
       <==> NonEmpty(t) && |Said(t)| < limit
  {
    SpeakWrites(sender, client, opcode, t);
    Sequences.Split(sender.written, Wire(client, opcode, t));
    if NonEmpty(t) && |Said(t)| < limit {
      WireSpells(client, opcode, t);
      RecvSpelled(receiver, client, opcode, t, rest, limit);
    } else if limit > 0 {
      NotHeard(receiver, client, opcode, t, rest, limit, 0, []);
    } else if Recv(receiver, !client, limit, 0, []).0.Message? {
      DeliveredSize(receiver, !client, limit, 0, []);
    }
  }

  /** Conversations sent one after the other over one stream. */
  datatype Session = Over | Then(opcode: byte, talk: Talk, more: Session)

  predicate Transmittable(s: Session, limit: nat) {
    s.Then? ==>
      && (s.opcode == TEXT_FRAME || s.opcode == BIN_FRAME)
      && Sendable(s.talk) && |Said(s.talk)| < limit
      && Transmittable(s.more, limit)
  }

  function SpeakEach(net: Net, client: bool, s: Session, limit: nat): Net
    requires Transmittable(s, limit)
    decreases s
  {
    if s.Over? then net else SpeakEach(Speak(net, client, s.opcode, s.talk), client, s.more, limit)
  }

  /** As many receive calls as there are conversations. */
  function RecvEach(net: Net, client: bool, limit: nat, s: Session): (seq<Received>, Net)
    decreases s
  {
    if s.Over? then ([], net)
    else
      var (r, after) := Recv(net, client, limit, 0, []);
      var (more, last) := RecvEach(after, client, limit, s.more);
      ([r] + more, last)
  }

  function SpellEach(client: bool, s: Session, limit: nat): seq<byte>
    requires Transmittable(s, limit)
  {
    if s.Over? then [] else EncodeAll(Spell(client, s.opcode, s.talk)) + SpellEach(client, s.more, limit)
  }

  function AllPings(s: Session): nat {
    if s.Over? then 0 else PingsIn(s.talk) + AllPings(s.more)
  }

  function SaidEach(s: Session): seq<Received> {
    if s.Over? then [] else [Message(s.opcode as int, Said(s.talk))] + SaidEach(s.more)
  }

  lemma {:induction false} SpeakEachSpells(net: Net, client: bool, s: Session, limit: nat)
    requires Transmittable(s, limit) && net.open && |SpellEach(client, s, limit)| <= net.room
    ensures SpeakEach(net, client, s, limit).written == net.written + SpellEach(client, s, limit)
    decreases s
  {
    if s.Over? {
      Sequences.Empty(net.written);
    } else {
      SpeakSpells(net, client, s.opcode, s.talk);
      SpeakEachSpells(Speak(net, client, s.opcode, s.talk), client, s.more, limit);
      Sequences.Assoc(net.written, EncodeAll(Spell(client, s.opcode, s.talk)), SpellEach(client, s.more, limit));
    }
  }

  /** The receiver's stream once every conversation of the session has been taken. */
  function AfterEach(receiver: Net, s: Session, rest: seq<byte>): Net
    requires 2 * AllPings(s) <= receiver.room
  {
    Net(rest, receiver.written + Pongs(AllPings(s)), receiver.room - 2 * AllPings(s), receiver.open)
  }

  lemma AfterFirst(receiver: Net, s: Session, tail: seq<byte>, rest: seq<byte>)
    requires s.Then? && 2 * AllPings(s) <= receiver.room
    ensures var after := Heard(receiver, s.opcode, s.talk, tail).1;
            2 * AllPings(s.more) <= after.room && AfterEach(receiver, s, rest) == AfterEach(after, s.more, rest)
  {
    PongsAdd(receiver.written, PingsIn(s.talk), AllPings(s.more));
  }

  lemma {:induction false} RecvEachSpelled(receiver: Net, client: bool, s: Session, rest: seq<byte>, limit: nat)
    requires Transmittable(s, limit) && limit <= TWO_31
    requires receiver.open && 2 * AllPings(s) <= receiver.room
    requires receiver.incoming == SpellEach(client, s, limit) + rest
    ensures RecvEach(receiver, !client, limit, s) == (SaidEach(s), AfterEach(receiver, s, rest))
    decreases s
  {
    if s.Over? {
      Sequences.Empty(rest);
      Sequences.Empty(receiver.written);
    } else {
      var tail := SpellEach(client, s.more, limit) + rest;
      Sequences.Assoc(EncodeAll(Spell(client, s.opcode, s.talk)), SpellEach(client, s.more, limit), rest);
      RecvSpelled(receiver, client, s.opcode, s.talk, tail, limit);
      AfterFirst(receiver, s, tail, rest);
      RecvEachSpelled(Heard(receiver, s.opcode, s.talk, tail).1, client, s.more, rest, limit);
    }
  }

  lemma {:induction false} PongsAdd(written: seq<byte>, a: nat, b: nat)
    ensures written + Pongs(a) + Pongs(b) == written + Pongs(a + b)
    decreases a
  {
    if a == 0 {
      Sequences.Empty(written);
    } else {
      PongsAdd(written + PONG_FRAME, a - 1, b);
      Sequences.Assoc(written, PONG_FRAME, Pongs(a - 1));
      Sequences.Assoc(written, PONG_FRAME, Pongs(a - 1 + b));
    }
  }

  /** A sequence of messages round-trips: the n-th receive call returns the n-th conversation, all
      pings are answered once, and the octets after the last message stay unread. */
  lemma MessagesRoundTrip(sender: Net, receiver: Net, client: bool, s: Session, rest: seq<byte>, limit: nat)
    requires Transmittable(s, limit) && limit <= TWO_31
    requires sender.open && sender.written == [] && |SpellEach(client, s, limit)| <= sender.room
    requires receiver.open && 2 * AllPings(s) <= receiver.room
    requires receiver.incoming == SpeakEach(sender, client, s, limit).written + rest
    ensures RecvEach(receiver, !client, limit, s) == (SaidEach(s), AfterEach(receiver, s, rest))
  {
    SpeakEachSpells(sender, client, s, limit);
    Sequences.Empty(SpellEach(client, s, limit));
    RecvEachSpelled(receiver, client, s, rest, limit);
  }

  lemma {:induction false} PayloadsGrow(m: Spelling, client: bool, limit: nat, have: nat)
    requires IsMessage(m, client, limit, have)
    ensures 0 < |Payloads(m)| && have + |Payloads(m)| < limit
  {
    if m.Next? {
      PayloadsGrow(m.more, client, limit, have + Size(m.frame));
    }
  }

  /** No delivered message is empty or reaches the limit. */
  lemma DeliveredSize(net: Net, client: bool, limit: nat, opcode: int, data: seq<byte>)
    requires limit <= TWO_31 && |data| < TWO_31 && Recv(net, client, limit, opcode, data).0.Message?
    ensures |data| < |Recv(net, client, limit, opcode, data).0.data| < limit
  {
    var m, rest := RecvFinds(net, client, limit, opcode, data);
    RecvAccepts(m, rest, net, client, limit, opcode, data);
    PayloadsGrow(m, client, limit, |data|);
  }

  lemma DeliveredKeepsWritten(net: Net, client: bool, limit: nat, opcode: int, data: seq<byte>)
    requires limit <= TWO_31 && |data| < TWO_31 && Recv(net, client, limit, opcode, data).0.Message?
    ensures |net.written| <= |Recv(net, client, limit, opcode, data).1.written|
  {
    var m, rest := RecvFinds(net, client, limit, opcode, data);
    RecvAccepts(m, rest, net, client, limit, opcode, data);
  }

  /** Exactly which single messages survive: the empty message is not one of them, because a
      zero-length write counts as a failure (and a zero-length read as well). */
  lemma SingleMessageRoundTrip(sender: Net, receiver: Net, client: bool, opcode: byte, data: seq<byte>,
                               key: seq<byte>, limit: nat)
    requires opcode == TEXT_FRAME || opcode == BIN_FRAME
    requires |key| == 4 && |data| < TWO_63 && limit <= TWO_31
    requires sender.open && sender.written == [] && |FrameOctets(client, true, opcode as int, data, key)| <= sender.room
    requires receiver.open && receiver.incoming == Send(sender, client, true, opcode as int, data, key).written
    ensures Recv(receiver, !client, limit, 0, []).0 == Message(opcode as int, data) <==> 0 < |data| < limit
  {
    if Recv(receiver, !client, limit, 0, []).0.Message? {
      DeliveredSize(receiver, !client, limit, 0, []);
    }
    if 0 < |data| < limit {
      var t := Finish(data, key);
      var octets := EncodeAll(Spell(client, opcode, t));
      FrameOctetsEncode(client, true, opcode, data, key);
      Sequences.Empty(octets);
      SentWhole(sender, octets);
      RecvSpelled(receiver, client, opcode, t, [], limit);
    }
  }

  /** The empty message in particular: its sender closes, and its receiver closes. */
  lemma EmptyMessageCloses(sender: Net, receiver: Net, opcode: byte, key: seq<byte>, limit: nat)
    requires (opcode == TEXT_FRAME || opcode == BIN_FRAME) && |key| == 4 && 0 < limit <= TWO_31
    requires sender.open && sender.written == [] && 6 <= sender.room
    requires receiver.open && receiver.incoming == Send(sender, true, true, opcode as int, [], key).written
    ensures !Send(sender, true, true, opcode as int, [], key).open
    ensures Recv(receiver, false, limit, 0, []).0.Closed? && !Recv(receiver, false, limit, 0, []).1.open
  {
    var octets := FrameOctets(true, true, opcode as int, [], key);
    assert octets == [128 + opcode, 128] + key;
    SentWhole(sender, octets);
    Sequences.Empty(octets);
    Sequences.Split([128 + opcode, 128], key);
    TurnOfData(receiver, false, limit, 0, [], 128 + opcode, 128, key);
  }

  /** `net` holds one whole masked TEXT or BIN frame of 1 to 125 octets, then `rest`. */
  predicate HoldsSmallFrame(net: Net, b0: byte, key: seq<byte>, payload: seq<byte>, rest: seq<byte>) {
    && net.open && net.incoming == Encode(DataFrame(b0, Short, key, payload)) + rest
    && (b0 % 16 == TEXT_FRAME || b0 % 16 == BIN_FRAME)
    && |key| == 4 && 0 < |payload| < 126
  }

  lemma SmallFrameShape(b0: byte, key: seq<byte>, payload: seq<byte>, rest: seq<byte>)
    requires |key| == 4 && 0 < |payload| < 126
    ensures Encode(DataFrame(b0, Short, key, payload)) + rest
         == [b0, 128 + |payload|] + (key + (Masked(payload, key) + rest))
  {
    var f := DataFrame(b0, Short, key, payload);
    var carried := Masked(payload, key);
    Sequences.Empty(key + carried);
    Sequences.Assoc([b0, 128 + |payload|], key + carried, rest);
    Sequences.Assoc(key, carried, rest);
  }

  lemma EchoTakes(net: Net, b0: byte, key: seq<byte>, payload: seq<byte>, rest: seq<byte>)
    requires |key| == 4 && net.open && net.incoming == key + (Masked(payload, key) + rest)
    requires 0 < |payload| < 126 && |payload| + 2 <= net.room
    ensures EchoFrame(net, b0, |payload|)
         == (true, Sent(net.(incoming := rest), Header(true, b0 % 16, false, |payload|) + payload))
  {
    var carried := Masked(payload, key);
    Sequences.Assoc(key, carried, rest);
    Sequences.Split(key + carried, rest);
    Sequences.Split(key, carried);
    MaskedTwice(payload, key);
  }

  lemma EchoWrites(net: Net, b0: byte, key: seq<byte>, payload: seq<byte>, rest: seq<byte>)
    requires HoldsSmallFrame(net, b0, key, payload, rest) && |payload| + 2 <= net.room
    ensures Echo(net) == (true, Sent(net.(incoming := rest), Header(true, b0 % 16, false, |payload|) + payload))
  {
    var tail := key + (Masked(payload, key) + rest);
    SmallFrameShape(b0, key, payload, rest);
    EchoHead(net, b0, |payload|, tail);
    EchoTakes(net.(incoming := tail), b0, key, payload, rest);
  }

  /** A frame of which two octets are taken and nothing is echoed: a ping is answered by an empty pong, or
      the stream closed if it does not fit; a pong is passed over; every other frame but a masked TEXT or BIN
      frame of 1 to 125 octets is refused. */
  lemma EchoOfOthers(net: Net, b0: byte, b1: byte, rest: seq<byte>)
    requires net.open && net.incoming == [b0, b1] + rest
    ensures b0 % 16 == 9 && net.room >= 2 ==>
      Echo(net) == (true, Net(rest, net.written + [0x8A, 0], net.room - 2, true))
    ensures b0 % 16 == 9 && net.room < 2 ==>
      Echo(net) == (false, Net(rest, net.written + [0x8A, 0][..net.room], 0, false))
    ensures b0 % 16 == 10 ==> Echo(net) == (true, net.(incoming := rest))
    ensures b0 % 16 !in {1, 2, 9, 10} ==> Echo(net) == (false, net.(incoming := rest))
    ensures b0 % 16 in {1, 2} && !(128 < b1 < 128 + 126) ==> Echo(net) == (false, net.(incoming := rest))
  {
    Sequences.Split([b0, b1], rest);
    assert Drained(net, 2) == net.(incoming := rest);
    assert PONG_FRAME[..2] == PONG_FRAME;
  }

  /** A frame that breaks off consumes what is there and echoes nothing. */
  lemma EchoBreaksOff(net: Net, b0: byte, b1: byte, rest: seq<byte>)
    requires net.open && net.incoming == [b0, b1] + rest && b0 % 16 in {1, 2} && 128 < b1 < 128 + 126
    requires |rest| < 4 + (b1 - 128)
    ensures Echo(net) == (false, net.(incoming := []))
  {
    EchoHead(net, b0, b1 - 128, rest);
    assert rest[|rest|..] == [];
  }

  lemma EchoHead(net: Net, b0: byte, len: nat, tail: seq<byte>)
    requires 0 < len < 126 && net.open && net.incoming == [b0, 128 + len] + tail
    requires b0 % 16 == TEXT_FRAME || b0 % 16 == BIN_FRAME
    ensures Echo(net) == EchoFrame(net.(incoming := tail), b0, len)
  {
    Sequences.Split([b0, 128 + len], tail);
    assert Drained(net, 2) == net.(incoming := tail);
  }

  /** On a final frame the general code receives the payload and sends the same octets back. */
  lemma ReceiveAndSend(net: Net, b0: byte, key: seq<byte>, payload: seq<byte>, rest: seq<byte>, limit: nat,
                       anyKey: seq<byte>)
    requires HoldsSmallFrame(net, b0, key, payload, rest) && b0 >= 128
    requires |payload| + 2 <= net.room && |payload| < limit <= TWO_31 && |anyKey| == 4
    ensures var after := net.(incoming := rest);
            Recv(net, false, limit, 0, []) == (Message(b0 % 16, payload), after)
            && Send(after, false, true, b0 % 16, payload, anyKey)
               == Sent(after, Header(true, b0 % 16, false, |payload|) + payload)
  {
    ReceiveSmall(net, b0, key, payload, rest, limit);
    SendSmall(net.(incoming := rest), b0 % 16, payload, anyKey);
  }

  lemma ReceiveSmall(net: Net, b0: byte, key: seq<byte>, payload: seq<byte>, rest: seq<byte>, limit: nat)
    requires HoldsSmallFrame(net, b0, key, payload, rest) && b0 >= 128
    requires |payload| + 2 <= net.room && |payload| < limit <= TWO_31
    ensures Recv(net, false, limit, 0, []) == (Message(b0 % 16, payload), net.(incoming := rest))
  {
    HeadTaken(DataFrame(b0, Short, key, payload), rest, net, false, limit, 0, []);
    Sequences.Empty(payload);
  }

  lemma SendSmall(net: Net, opcode: byte, payload: seq<byte>, anyKey: seq<byte>)
    requires opcode < 16 && 0 < |payload| < 126 && |anyKey| == 4 && net.open && |payload| + 2 <= net.room
    ensures Send(net, false, true, opcode, payload, anyKey)
            == Sent(net, Header(true, opcode, false, |payload|) + payload)
  {
    Sequences.Empty(Header(true, opcode, false, |payload|));
  }

  /** On a frame that is not final the general code either gives up or sends more than the payload. */
  lemma ReceiveMore(net: Net, b0: byte, key: seq<byte>, payload: seq<byte>, rest: seq<byte>, limit: nat)
    requires HoldsSmallFrame(net, b0, key, payload, rest) && b0 < 128
    requires |payload| < limit <= TWO_31
    ensures var (r, after) := Recv(net, false, limit, 0, []);
            r.Message? ==> |payload| < |r.data| && |net.written| <= |after.written|
  {
    var f := DataFrame(b0, Short, key, payload);
    HeadTaken(f, rest, net, false, limit, 0, []);
    Sequences.Empty(payload);
    var turn := AfterFrame(f, rest, net, 0, []);
    if Recv(turn.net, false, limit, turn.opcode, turn.data).0.Message? {
      DeliveredSize(turn.net, false, limit, turn.opcode, turn.data);
      DeliveredKeepsWritten(turn.net, false, limit, turn.opcode, turn.data);
    }
  }

  lemma SentLength(net: Net, fin: bool, opcode: int, data: seq<byte>, key: seq<byte>)
    requires |key| == 4 && Send(net, false, fin, opcode, data, key).open
    ensures |Send(net, false, fin, opcode, data, key).written| >= |net.written| + 2 + |data|
  {
    SentWhole(net, FrameOctets(false, fin, opcode, data, key));
  }

  /** The echo fast path against the general code. On a small masked data frame that is final, it
      leaves the stream exactly as receiving the message and sending it back does; on one that is
      not final it never does, because it answers at once and marks its answer final. */
  lemma EchoAgrees(net: Net, b0: byte, key: seq<byte>, payload: seq<byte>, rest: seq<byte>, limit: nat,
                   anyKey: seq<byte>)
    requires HoldsSmallFrame(net, b0, key, payload, rest)
    requires |payload| + 2 <= net.room && |payload| < limit <= TWO_31 && |anyKey| == 4
    ensures Echo(net).0
    ensures var (r, after) := Recv(net, false, limit, 0, []);
            (r.Message? && Send(after, false, true, r.opcode, r.data, anyKey) == Echo(net).1) <==> b0 >= 128
  {
    EchoWrites(net, b0, key, payload, rest);
    if b0 >= 128 {
      ReceiveAndSend(net, b0, key, payload, rest, limit, anyKey);
    } else {
      ReceiveMore(net, b0, key, payload, rest, limit);
      SentWhole(net.(incoming := rest), Header(true, b0 % 16, false, |payload|) + payload);
      var (r, after) := Recv(net, false, limit, 0, []);
      if r.Message? && Send(after, false, true, r.opcode, r.data, anyKey).open {
        SentLength(after, true, r.opcode, r.data, anyKey);
      }
    }
  }
}
