/** zero/core/io/stream.cc: reading and writing a fixed number of octets over a transport that
    moves them in pieces of its own choosing. */
module Streams {
  import opened Bytes

  /** What a stream's owner can observe: the octets the peer has sent and nobody has read yet, the
      octets written so far, how many more the transport will take before a write fails, and
      whether the connection is open. */
  datatype Net = Net(incoming: seq<byte>, written: seq<byte>, room: nat, open: bool)

  /** A fixed-size request is looked at through a signed 64-bit counter, so nothing is transferred
      for zero or for a length with the top bit set. */
  predicate Transfers(length: nat) {
    0 < length < TWO_63
  }

  predicate Readable(net: Net, length: nat) {
    net.open && length <= |net.incoming|
  }

  /** The octets a fixed-size read hands over: all that were asked for, or whatever was left. */
  function Took(net: Net, length: nat): seq<byte> {
    if !Transfers(length) || !net.open then []
    else if length <= |net.incoming| then net.incoming[..length]
    else net.incoming
  }

  function Drained(net: Net, length: nat): Net {
    net.(incoming := net.incoming[|Took(net, length)|..])
  }

  /** The value `readFixSize` reports is positive. */
  predicate ReadSucceeds(net: Net, length: nat) {
    (Transfers(length) ==> Readable(net, length)) && ToInt32(length) > 0
  }

  predicate Writable(net: Net, octets: seq<byte>) {
    net.open && |octets| <= net.room
  }

  /** The stream after trying to write `octets`: a transport that gives up keeps a prefix. */
  function Sent(net: Net, octets: seq<byte>): Net {
    if !net.open then net
    else
      var n := if |octets| <= net.room then |octets| else net.room;
      net.(written := net.written + octets[..n], room := net.room - n)
  }

  predicate WriteSucceeds(net: Net, octets: seq<byte>) {
    Writable(net, octets) && ToInt32(|octets|) > 0
  }

  function Close(net: Net): Net {
    net.(open := false)
  }

  lemma SentTwice(net: Net, a: seq<byte>, b: seq<byte>)
    ensures Writable(net, a) ==> Sent(Sent(net, a), b) == Sent(net, a + b)
    ensures !Writable(net, a) ==> Sent(net, a) == Sent(net, a + b)
  {
    if net.open && |a| <= net.room {
      var n := if |b| <= net.room - |a| then |b| else net.room - |a|;
      assert (a + b)[..|a| + n] == a + b[..n];
      assert a[..|a|] == a;
      assert net.written + a + b[..n] == net.written + (a + b[..n]);
    } else if net.open {
      assert (a + b)[..net.room] == a[..net.room];
    }
  }

  class Stream {
    var incoming: seq<byte>
    var written: seq<byte>
    var room: nat
    var open: bool

    constructor (net: Net)
      ensures State() == net
    {
      incoming, written, room, open := net.incoming, net.written, net.room, net.open;
    }

    ghost function State(): Net
      reads this
    {
      Net(incoming, written, room, open)
    }

    method CloseStream()
      modifies this
      ensures State() == Close(old(State()))
    {
      open := false;
    }

    /** One transport read: any non-empty piece of what is there, at most `length` octets. */
    method Read(length: nat) returns (piece: seq<byte>)
      requires length > 0
      modifies this
      ensures piece == [] <==> !old(open) || old(incoming) == []
      ensures |piece| <= length && |piece| <= |old(incoming)|
      ensures piece == old(incoming)[..|piece|]
      ensures State() == old(State()).(incoming := old(incoming)[|piece|..])
    {
      if !open || incoming == [] {
        return [];
      }
      var k: nat :| 0 < k <= length && k <= |incoming|;
      piece := incoming[..k];
      incoming := incoming[k..];
    }

    method ReadFixSize(length: nat) returns (rc: int, data: seq<byte>)
      requires length < TWO_64
      modifies this
      ensures data == Took(old(State()), length)
      ensures State() == Drained(old(State()), length)
      ensures rc > 0 <==> ReadSucceeds(old(State()), length)
    {
      data := [];
      var left: int := if length < TWO_63 then length else length - TWO_64;
      while left > 0
        invariant left <= 0 ==> |data| == if Transfers(length) then length else 0
        invariant left > 0 ==> |data| + left == length < TWO_63
        invariant |data| <= |old(incoming)| && data == old(incoming)[..|data|]
        invariant |data| > 0 ==> open
        invariant State() == old(State()).(incoming := old(incoming)[|data|..])
        decreases left
      {
        var piece := Read(left);
        if piece == [] {
          return 0, data;
        }
        data := data + piece;
        left := left - |piece|;
      }
      rc := ToInt32(length);
    }

    /** One transport write: some non-empty prefix is taken, unless the transport has given up. */
    method Write(octets: seq<byte>) returns (n: nat)
      requires octets != []
      modifies this
      ensures n == 0 <==> !old(open) || old(room) == 0
      ensures n <= |octets| && n <= old(room)
      ensures State() == old(State()).(written := old(written) + octets[..n], room := old(room) - n)
    {
      if !open || room == 0 {
        return 0;
      }
      n :| 0 < n <= |octets| && n <= room;
      written := written + octets[..n];
      room := room - n;
    }

    method WriteFixSize(octets: seq<byte>) returns (rc: int)
      requires |octets| < TWO_63
      modifies this
      ensures State() == Sent(old(State()), octets)
      ensures rc > 0 <==> octets != [] && WriteSucceeds(old(State()), octets)
    {
      var offset := 0;
      while offset < |octets|
        invariant 0 <= offset <= |octets|
        invariant offset <= old(room) && (offset > 0 ==> open)
        invariant State() == old(State()).(written := old(written) + octets[..offset], room := old(room) - offset)
        decreases |octets| - offset
      {
        var n := Write(octets[offset..]);
        if n == 0 {
          return 0;
        }
        assert octets[..offset] + octets[offset..][..n] == octets[..offset + n];
        offset := offset + n;
      }
      rc := ToInt32(|octets|);
    }
  }
}
