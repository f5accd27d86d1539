/** zero/http/hpack.cc: header compression with the static table only (RFC 7541, sections 5 and 6).
    The functions say what the encoder and decoder compute for any static table; the methods are the
    loops of the source, proved against them. */
module Hpack {
  import opened Bytes
  import opened HpackTable
  import Sequences

  /** An unsigned integer read from `data`, with the offset after it. `BadShift` is a continuation octet
      that the decoder shifts by 32 bits or more, which C++ does not define. */
  datatype Number = Number(value: nat, next: nat) | BadShift

  /** `OutOfBounds` is a read of the octet just past the block. */
  datatype Fault = Malformed | OutOfBounds | Undefined

  datatype Text = Text(octets: seq<byte>, next: nat) | NoText(fault: Fault)

  /** How a header field was spelt (RFC 7541, sections 6.1 and 6.2). */
  datatype Form = Indexed | LiteralName | IndexedName

  datatype Turn = Field(header: Header, form: Form, next: nat) | Stop(fault: Fault)

  datatype Outcome = Decoded(headers: map<seq<byte>, seq<byte>>) | Failed(fault: Fault)

  // ---------------------------------------------------------------- integers

  /** The largest value of an `n`-bit prefix. */
  function Mask(n: nat): (m: byte)
    requires 1 <= n <= 8
    ensures m == Pow2(n) - 1
  {
    assert Pow2(1) == 2 && Pow2(2) == 4 && Pow2(3) == 8 && Pow2(4) == 16;
    assert Pow2(5) == 32 && Pow2(6) == 64 && Pow2(7) == 128 && Pow2(8) == 256;
    Pow2(n) - 1
  }

  /** Seven bits an octet, low-order group first, the top bit set on all but the last. */
  function Continuation(v: nat): (s: seq<byte>)
    ensures |s| > 0
  {
    if v < 128 then [v] else [v % 128 + 128] + Continuation(v / 128)
  }

  /** RFC 7541, section 5.1. */
  function PrefixInt(value: nat, n: nat): (s: seq<byte>)
    requires 1 <= n <= 8
    ensures |s| > 0 && s[0] <= Mask(n)
  {
    if value < Mask(n) then [value] else [Mask(n)] + Continuation(value - Mask(n))
  }

  /** The continuation octets, added up modulo 2^32; it stops quietly at the end of the data. */
  function ReadContinuation(data: seq<byte>, offset: nat, value: nat, m: nat): (r: Number)
    requires offset <= |data|
    ensures r.Number? ==> offset <= r.next <= |data|
    ensures r.Number? && value < TWO_32 ==> r.value < TWO_32
    decreases |data| - offset
  {
    if offset == |data| then Number(value, offset)
    else if m >= 32 then BadShift
    else
      var sum := (value + data[offset] % 128 * Pow2(m)) % TWO_32;
      if data[offset] < 128 then Number(sum, offset + 1) else ReadContinuation(data, offset + 1, sum, m + 7)
  }

  function ReadInt(data: seq<byte>, offset: nat, n: nat): (r: Number)
    requires offset < |data| && 1 <= n <= 8
    ensures r.Number? ==> offset < r.next <= |data| && r.value < TWO_32
  {
    var b := data[offset] % Pow2(n);
    if b < Mask(n) then Number(b, offset + 1) else ReadContinuation(data, offset + 1, b, 0)
  }

  method EncodeInteger(value: nat, prefixBits: nat) returns (out: seq<byte>)
    requires value < TWO_32 && 1 <= prefixBits <= 8
    ensures out == PrefixInt(value, prefixBits)
  {
    var maxPrefix := Mask(prefixBits);
    if value < maxPrefix {
      return [value];
    }
    out := [maxPrefix];
    var left := value - maxPrefix;
    while left >= 128
      invariant 0 <= left
      invariant out + Continuation(left) == PrefixInt(value, prefixBits)
    {
      assert Continuation(left) == [left % 128 + 128] + Continuation(left / 128);
      out := out + [left % 128 + 128];
      left := left / 128;
    }
    out := out + [left];
  }

  method DecodeInteger(data: seq<byte>, offset: nat, prefixBits: nat) returns (r: Number)
    requires offset < |data| && 1 <= prefixBits <= 8
    ensures r == ReadInt(data, offset, prefixBits)
  {
    var maxPrefix := Mask(prefixBits);
    var value: nat := data[offset] % (maxPrefix as int + 1);
    var next := offset + 1;
    if value < maxPrefix {
      return Number(value, next);
    }
    var m := 0;
    while next < |data|
      invariant offset < next <= |data|
      invariant ReadInt(data, offset, prefixBits) == ReadContinuation(data, next, value, m)
    {
      var octet := data[next];
      if m >= 32 {
        return BadShift;
      }
      next := next + 1;
      value := (value + octet % 128 * Pow2(m)) % TWO_32;
      if octet < 128 {
        return Number(value, next);
      }
      m := m + 7;
    }
    r := Number(value, next);
  }

  // ---------------------------------------------------------------- strings

  /** RFC 7541, section 5.2, never Huffman coded. The size is cut to 32 bits. */
  function StringBytes(s: seq<byte>): (r: seq<byte>)
    ensures |r| > 0 && r[0] < 128
  {
    assert Pow2(7) == 128;
    PrefixInt(|s| % TWO_32, 7) + s
  }

  function ReadString(data: seq<byte>, offset: nat): (r: Text)
    requires offset <= |data|
    ensures r.Text? ==> offset < r.next <= |data| && |r.octets| < TWO_32
  {
    if offset == |data| then NoText(Malformed)
    else
      var size := ReadInt(data, offset, 7);
      if size.BadShift? then NoText(Undefined)
      else if size.next + size.value > |data| || data[offset] >= 128 then NoText(Malformed)
      else Text(data[size.next..size.next + size.value], size.next + size.value)
  }

  method EncodeStringLiteral(s: seq<byte>) returns (out: seq<byte>)
    ensures out == StringBytes(s)
  {
    assert Pow2(7) == 128;
    out := EncodeInteger(|s| % TWO_32, 7);
    out := out[0 := out[0] % 128];
    out := out + s;
  }

  method DecodeStringLiteral(data: seq<byte>, offset: nat) returns (r: Text)
    requires offset <= |data|
    ensures r == ReadString(data, offset)
  {
    if offset >= |data| {
      return NoText(Malformed);
    }
    var huffman := data[offset] >= 128;
    var size := DecodeInteger(data, offset, 7);
    if size.BadShift? {
      return NoText(Undefined);
    }
    if size.next + size.value > |data| {
      return NoText(Malformed);
    }
    if huffman {
      return NoText(Malformed);
    }
    r := Text(data[size.next..size.next + size.value], size.next + size.value);
  }

  // ---------------------------------------------------------------- header fields

  /** The first entry from `i` on that is the header, or 0. */
  function LookupFrom(table: seq<Entry>, h: Header, i: nat): nat
    decreases |table| - i
  {
    if i >= |table| then 0 else if table[i] == h then i else LookupFrom(table, h, i + 1)
  }

  /** The position of the first equal entry, entry 0 not counting; 0 if there is none. */
  method LookupStaticTable(table: seq<Entry>, h: Header) returns (index: nat)
    ensures index == LookupFrom(table, h, 1)
    ensures index != 0 ==> index < |table| && table[index] == h && forall i | 1 <= i < index :: table[i] != h
    ensures index == 0 ==> forall i | 1 <= i < |table| :: table[i] != h
  {
    var i := 1;
    while i < |table|
      invariant 1 <= i
      invariant forall j | 1 <= j < i && j < |table| :: table[j] != h
      invariant LookupFrom(table, h, 1) == LookupFrom(table, h, i)
    {
      if table[i] == h {
        return i;
      }
      i := i + 1;
    }
    index := 0;
  }

  function SetTopBit(s: seq<byte>): seq<byte>
    requires |s| > 0
  {
    s[0 := if s[0] < 128 then s[0] + 128 else s[0]]
  }

  /** One header on the wire: its index if the table has it whole, else a literal with a literal name. */
  function FieldBytes(table: seq<Entry>, h: Header): seq<byte> {
    var index := LookupFrom(table, h, 1);
    if index > 0 then SetTopBit(PrefixInt(index % TWO_32, 7))
    else [0x40] + (StringBytes(h.name) + StringBytes(h.value))
  }

  predicate AllIn(order: seq<seq<byte>>, headers: map<seq<byte>, seq<byte>>) {
    forall i | 0 <= i < |order| :: order[i] in headers
  }

  /** The headers of `order` from the `i`-th on, one after the other. */
  function HeaderBytes(table: seq<Entry>, headers: map<seq<byte>, seq<byte>>, order: seq<seq<byte>>, i: nat): seq<byte>
    requires AllIn(order, headers)
    decreases |order| - i
  {
    if i >= |order| then []
    else FieldBytes(table, Header(order[i], headers[order[i]])) + HeaderBytes(table, headers, order, i + 1)
  }

  /** A name from the table. The reader has already skipped the first octet when it gets here, so it takes
      the prefix from the octet after it, and reads past the block when there is none. */
  function ReadIndexedName(table: seq<Entry>, data: seq<byte>, offset: nat, n: nat): (r: Text)
    requires offset <= |data| && 1 <= n <= 8
    ensures r.Text? ==> offset < r.next <= |data| && |r.octets| < TWO_32
  {
    if offset == |data| then NoText(OutOfBounds)
    else
      var index := ReadInt(data, offset, n);
      if index.BadShift? then NoText(Undefined)
      else if index.value == 0 || index.value >= |table| then NoText(Malformed)
      else Text(table[index.value].name, index.next)
  }

  /** A literal field after its first octet, whose `n` low-order bits are `low`. */
  function ReadLiteral(table: seq<Entry>, data: seq<byte>, offset: nat, low: nat, n: nat): (t: Turn)
    requires offset <= |data| && 1 <= n <= 8
    ensures t.Field? ==> offset < t.next <= |data| && Short(t.header)
  {
    var name := if low != 0 then ReadIndexedName(table, data, offset, n) else ReadString(data, offset);
    if name.NoText? then Stop(name.fault)
    else
      var value := ReadString(data, name.next);
      if value.NoText? then Stop(value.fault)
      else Field(Header(name.octets, value.octets), if low != 0 then IndexedName else LiteralName, value.next)
  }

  function TurnOf(table: seq<Entry>, data: seq<byte>, offset: nat): (t: Turn)
    requires offset < |data|
    ensures t.Field? ==> offset < t.next <= |data| && Short(t.header)
  {
    var b := data[offset];
    if b >= 0x80 then
      var index := ReadInt(data, offset, 7);
      if index.BadShift? then Stop(Undefined)
      else if index.value == 0 || index.value >= |table| then Stop(Malformed)
      else Field(table[index.value], Indexed, index.next)
    else if b >= 0x40 then ReadLiteral(table, data, offset + 1, b % 0x40, 6)
    else if b < 0x20 then ReadLiteral(table, data, offset + 1, b % 0x10, 4)
    else Stop(Malformed)
  }

  function Decoding(table: seq<Entry>, data: seq<byte>, offset: nat, headers: map<seq<byte>, seq<byte>>): Outcome
    requires offset <= |data|
    decreases |data| - offset
  {
    if offset == |data| then Decoded(headers)
    else
      var t := TurnOf(table, data, offset);
      if t.Stop? then Failed(t.fault)
      else Decoding(table, data, t.next, headers[t.header.name := t.header.value])
  }

  /** `order` is the order in which the map is walked; every header once. */
  ghost predicate Enumerates(order: seq<seq<byte>>, headers: map<seq<byte>, seq<byte>>) {
    && AllIn(order, headers)
    && (forall i, j | 0 <= i < j < |order| :: order[i] != order[j])
    && (forall name | name in headers :: name in order)
  }

  method Encode(table: seq<Entry>, headers: map<seq<byte>, seq<byte>>, order: seq<seq<byte>>)
    returns (out: seq<byte>)
    requires |table| < TWO_31 && AllIn(order, headers)
    ensures out == HeaderBytes(table, headers, order, 0)
  {
    out := [];
    for i := 0 to |order|
      invariant HeaderBytes(table, headers, order, 0) == out + HeaderBytes(table, headers, order, i)
    {
      var field := EncodeField(table, Header(order[i], headers[order[i]]));
      Sequences.Assoc(out, field, HeaderBytes(table, headers, order, i + 1));
      out := out + field;
    }
  }

  method EncodeField(table: seq<Entry>, h: Header) returns (out: seq<byte>)
    requires |table| < TWO_31
    ensures out == FieldBytes(table, h)
  {
    var index := LookupStaticTable(table, h);
    if index > 0 {
      out := EncodeInteger(index, 7);
      out := SetTopBit(out);
    } else {
      out := [0x40];
      var name := EncodeStringLiteral(h.name);
      out := out + name;
      var value := EncodeStringLiteral(h.value);
      out := out + value;
      assert [0x40] + name + value == [0x40] + (name + value);
    }
  }

  method DecodeLiteral(table: seq<Entry>, data: seq<byte>, offset: nat, low: nat, n: nat) returns (t: Turn)
    requires offset <= |data| && 1 <= n <= 8
    ensures t == ReadLiteral(table, data, offset, low, n)
  {
    var name;
    if low != 0 {
      if offset == |data| {
        return Stop(OutOfBounds);
      }
      var index := DecodeInteger(data, offset, n);
      if index.BadShift? {
        return Stop(Undefined);
      }
      if index.value == 0 || index.value >= |table| {
        return Stop(Malformed);
      }
      name := Text(table[index.value].name, index.next);
    } else {
      name := DecodeStringLiteral(data, offset);
      if name.NoText? {
        return Stop(name.fault);
      }
    }
    var value := DecodeStringLiteral(data, name.next);
    if value.NoText? {
      return Stop(value.fault);
    }
    t := Field(Header(name.octets, value.octets), if low != 0 then IndexedName else LiteralName, value.next);
  }

  method DecodeField(table: seq<Entry>, data: seq<byte>, offset: nat) returns (t: Turn)
    requires offset < |data|
    ensures t == TurnOf(table, data, offset)
  {
    var b := data[offset];
    if b >= 0x80 {
      var index := DecodeInteger(data, offset, 7);
      if index.BadShift? {
        return Stop(Undefined);
      }
      if index.value == 0 || index.value >= |table| {
        return Stop(Malformed);
      }
      t := Field(table[index.value], Indexed, index.next);
    } else if b >= 0x40 {
      t := DecodeLiteral(table, data, offset + 1, b % 0x40, 6);
    } else if b < 0x20 {
      t := DecodeLiteral(table, data, offset + 1, b % 0x10, 4);
    } else {
      t := Stop(Malformed);
    }
  }

  /** `initial` is what the caller's map already holds. */
  method Decode(table: seq<Entry>, data: seq<byte>, initial: map<seq<byte>, seq<byte>>) returns (r: Outcome)
    ensures r == Decoding(table, data, 0, initial)
  {
    var offset, headers := 0, initial;
    while offset < |data|
      invariant offset <= |data|
      invariant Decoding(table, data, 0, initial) == Decoding(table, data, offset, headers)
    {
      var t := DecodeField(table, data, offset);
      if t.Stop? {
        return Failed(t.fault);
      }
      headers := headers[t.header.name := t.header.value];
      offset := t.next;
    }
    r := Decoded(headers);
  }
}
