/** What the decoder of zero/http/hpack.cc accepts at all, in terms of RFC 7541: exactly the fields of the
    standard, except that a literal with an indexed name is read from the octet behind its first. */
module HpackReading {
  import opened Options
  import opened Bytes
  import opened HpackTable
  import opened Hpack
  import opened HpackRoundTrip
  import opened HpackStandard

  // ---------------------------------------------------------------- integers, complete or cut off

  /** The value of the continuation octets from `offset` on, as far as they go. */
  function GroupSum(data: seq<byte>, offset: nat): nat
    requires offset <= |data|
    decreases |data| - offset
  {
    if offset == |data| then 0
    else if data[offset] < 128 then data[offset]
    else data[offset] - 128 + 128 * GroupSum(data, offset + 1)
  }

  /** Where they end, or the data does. */
  function GroupEnd(data: seq<byte>, offset: nat): (end: nat)
    requires offset <= |data|
    ensures offset <= end <= |data|
    decreases |data| - offset
  {
    if offset == |data| then offset
    else if data[offset] < 128 then offset + 1
    else GroupEnd(data, offset + 1)
  }

  lemma {:induction false} GroupsComplete(data: seq<byte>, offset: nat)
    requires offset <= |data|
    ensures match StdContinuation(data, offset)
            case Some(whole) => whole == Whole(GroupSum(data, offset), GroupEnd(data, offset))
            case None => GroupEnd(data, offset) == |data|
    decreases |data| - offset
  {
    if offset < |data| && data[offset] >= 128 {
      GroupsComplete(data, offset + 1);
    }
  }

  lemma LastGroup(data: seq<byte>, offset: nat, v: nat, m: nat, p: nat)
    requires offset < |data| && data[offset] < 128 && m < 32 && p == Pow2(m)
    ensures ReadContinuation(data, offset, v, m) == Number((v + data[offset] * p) % TWO_32, offset + 1)
  {
    assert data[offset] % 128 == data[offset];
  }

  function Groups(data: seq<byte>, offset: nat): Whole
    requires offset <= |data|
  {
    Whole(GroupSum(data, offset), GroupEnd(data, offset))
  }

  /** What the decoder makes of continuation octets, complete or not. */
  lemma {:induction false} GroupsRead(data: seq<byte>, offset: nat, v: nat, j: nat, p: nat)
    requires offset <= |data| && j <= 5 && p == Pow2(7 * j) && v < TWO_32
    ensures ReadContinuation(data, offset, v, 7 * j)
         == Capped(v, p, Groups(data, offset), GroupEnd(data, offset) - offset + j)
    decreases |data| - offset
  {
    var used := GroupEnd(data, offset) - offset + j;
    if offset == |data| {
      Wraps(v);
    } else if j == 5 {
      assert used > 5;
    } else if data[offset] < 128 {
      LastGroup(data, offset, v, 7 * j, p);
    } else {
      var d := data[offset] - 128;
      ReadsGroup(data, offset, v, 7 * j, p, d);
      SevenMore(7 * j);
      assert 7 * (j + 1) == 7 * j + 7;
      GroupsRead(data, offset + 1, (v + d * p) % TWO_32, j + 1, 128 * p);
      CappedStep(v, p, 128 * p, d, Groups(data, offset + 1), Groups(data, offset), used);
    }
  }

  /** The decoder's limits, also for an integer that is cut off: six octets and 32 bits. */
  predicate InLimits(data: seq<byte>, offset: nat, n: nat)
    requires offset < |data| && 1 <= n <= 8
  {
    data[offset] % Pow2(n) == Mask(n) ==>
      GroupEnd(data, offset + 1) - offset <= 6 && Mask(n) + GroupSum(data, offset + 1) < TWO_32
  }

  /** Within them a complete integer is read as it is, and one that is cut off as at least its prefix. */
  lemma IntRead(data: seq<byte>, offset: nat, n: nat)
    requires offset < |data| && 1 <= n <= 8 && InLimits(data, offset, n)
    ensures match StdInt(data, offset, n)
            case Some(whole) => ReadInt(data, offset, n) == Number(whole.value, whole.next) && whole.value < TWO_32
            case None => ReadInt(data, offset, n).Number? && ReadInt(data, offset, n).next == |data|
                         && ReadInt(data, offset, n).value >= Mask(n)
  {
    if data[offset] % Pow2(n) == Mask(n) {
      var m, sum, end := Mask(n), GroupSum(data, offset + 1), GroupEnd(data, offset + 1);
      Saturated(data, offset, n);
      GroupsComplete(data, offset + 1);
      assert Pow2(0) == 1;
      GroupsRead(data, offset + 1, m, 0, 1);
      CappedOnce(m, Whole(sum, end), end - offset - 1);
      Wraps(m + sum);
    }
  }

  /** For complete integers these are the limits stated before. */
  lemma LimitsAgree(data: seq<byte>, offset: nat, n: nat)
    requires offset < |data| && 1 <= n <= 8 && StdInt(data, offset, n).Some?
    ensures InLimits(data, offset, n) <==> NarrowInt(data, offset, n)
  {
    GroupsComplete(data, offset + 1);
  }

  // ---------------------------------------------------------------- strings

  predicate StringInLimits(data: seq<byte>, offset: nat)
    requires offset <= |data|
  {
    offset == |data| || InLimits(data, offset, 7)
  }

  /** What the decoder takes for a string is one, and what is one it takes, when its size is within the
      limits. */
  lemma StringAccepted(data: seq<byte>, offset: nat)
    requires offset <= |data| && StringInLimits(data, offset)
    ensures match ReadString(data, offset)
            case Text(octets, next) => StdString(data, offset) == Some(StdText(octets, next))
            case NoText(_) => StdString(data, offset) == None
  {
    if offset < |data| {
      IntRead(data, offset, 7);
      assert Pow2(7) == 128;
    }
  }

  /** A Huffman-coded string is none, whatever its size. */
  lemma HuffmanRejected(data: seq<byte>, offset: nat)
    requires offset < |data| && data[offset] >= 128
    ensures ReadString(data, offset).NoText? && StdString(data, offset) == None
  {
  }

  // ---------------------------------------------------------------- fields

  function NameBits(b: byte): (n: nat)
    ensures n == 4 || n == 6
  {
    if b >= 0x40 then 6 else 4
  }

  /** A literal with an indexed name, read one octet late: there has to be an index there. */
  function LateLiteral(table: seq<Entry>, data: seq<byte>, offset: nat): Option<StdField>
    requires offset < |data| && NamesByIndex(data[offset])
  {
    var n := NameBits(data[offset]);
    if offset + 1 < |data| && data[offset + 1] % Pow2(n) != 0 then StdLiteral(table, data, offset + 1, n) else None
  }

  /** The field that is taken from the octets at `offset`. */
  function TakenField(table: seq<Entry>, data: seq<byte>, offset: nat): (r: Option<StdField>)
    requires offset < |data|
    ensures r.Some? ==> offset < r.value.next <= |data|
  {
    if NamesByIndex(data[offset]) then LateLiteral(table, data, offset) else StdTurn(table, data, offset)
  }

  /** The integers that are read on the way are within the decoder's limits. */
  predicate WithinLimits(data: seq<byte>, offset: nat)
    requires offset < |data|
  {
    var b := data[offset];
    if NamesByIndex(b) then offset + 1 == |data| || LateWithin(data, offset + 1, NameBits(b))
    else if b >= 0x80 then InLimits(data, offset, 7)
    else 0x20 <= b < 0x40 || LiteralWithin(data, offset + 1)
  }

  predicate LateWithin(data: seq<byte>, p: nat, n: nat)
    requires p < |data| && 1 <= n <= 8
  {
    InLimits(data, p, n) && (StdInt(data, p, n).Some? ==> StringInLimits(data, StdInt(data, p, n).value.next))
  }

  predicate LiteralWithin(data: seq<byte>, p: nat)
    requires p <= |data|
  {
    StringInLimits(data, p) && (StdString(data, p).Some? ==> StringInLimits(data, StdString(data, p).value.next))
  }

  predicate SameField(turn: Turn, field: StdField) {
    turn.Field? && turn.header == Header(field.name, field.value) && turn.next == field.next
  }

  /** The two readings of `data` at `offset` agree. */
  predicate ReadAlike(data: seq<byte>, offset: nat)
    requires offset < |data|
  {
    var turn := TurnOf(STATIC_TABLE, data, offset);
    match TakenField(STATIC_TABLE, data, offset)
    case Some(field) => SameField(turn, field)
    case None => turn.Stop?
  }

  lemma IndexedAlike(data: seq<byte>, offset: nat)
    requires offset < |data| && data[offset] >= 0x80 && InLimits(data, offset, 7)
    ensures ReadAlike(data, offset)
  {
    StaticTableSize();
    assert Pow2(7) == 128;
    IntRead(data, offset, 7);
  }

  /** A literal behind its name. */
  lemma ValueAlike(data: seq<byte>, name: StdText, form: Form, turn: Turn)
    requires name.next <= |data| && StringInLimits(data, name.next) && |name.octets| < TWO_32
    requires var value := ReadString(data, name.next);
             turn == if value.NoText? then Stop(value.fault)
                     else Field(Header(name.octets, value.octets), form, value.next)
    ensures match StdString(data, name.next)
            case Some(value) => SameField(turn, StdField(name.octets, value.octets, value.next))
            case None => turn.Stop?
  {
    StringAccepted(data, name.next);
  }

  lemma PlainAlike(data: seq<byte>, offset: nat, n: nat)
    requires offset < |data| && data[offset] < 0x80 && !(0x20 <= data[offset] < 0x40) && !NamesByIndex(data[offset])
    requires n == NameBits(data[offset]) && LiteralWithin(data, offset + 1)
    ensures ReadAlike(data, offset)
  {
    assert Pow2(4) == 16 && Pow2(6) == 64;
    StringAccepted(data, offset + 1);
    if StdString(data, offset + 1).Some? {
      var name := StdString(data, offset + 1).value;
      ValueAlike(data, name, LiteralName, TurnOf(STATIC_TABLE, data, offset));
    }
  }

  lemma LateAlike(data: seq<byte>, offset: nat, n: nat)
    requires offset + 1 < |data| && NamesByIndex(data[offset]) && n == NameBits(data[offset])
    requires LateWithin(data, offset + 1, n)
    ensures ReadAlike(data, offset)
  {
    assert Pow2(4) == 16 && Pow2(6) == 64;
    StaticTableSize();
    IntRead(data, offset + 1, n);
    var index := StdInt(data, offset + 1, n);
    if index.Some? && 0 < index.value.value < |STATIC_TABLE| {
      var name := StdText(STATIC_TABLE[index.value.value].name, index.value.next);
      ValueAlike(data, name, IndexedName, TurnOf(STATIC_TABLE, data, offset));
    }
  }

  /** Whatever the octets: within the limits the decoder takes a field where the standard's reading, late
      for indexed names, does, it is the same field with the same end, and it rejects everything else. */
  lemma DecoderAccepts(data: seq<byte>, offset: nat)
    requires offset < |data| && WithinLimits(data, offset)
    ensures ReadAlike(data, offset)
  {
    var b := data[offset];
    if NamesByIndex(b) {
      if offset + 1 < |data| {
        LateAlike(data, offset, NameBits(b));
      }
    } else if b >= 0x80 {
      IndexedAlike(data, offset);
    } else if !(0x20 <= b < 0x40) {
      PlainAlike(data, offset, NameBits(b));
    }
  }

  /** Where the standard reads a string outside the limits, the decoder does not read that one. */
  lemma StringBeyond(data: seq<byte>, offset: nat, text: StdText)
    requires offset <= |data| && StdString(data, offset) == Some(text) && !StringInLimits(data, offset)
    ensures ReadString(data, offset).Text? ==> ReadString(data, offset).octets != text.octets
  {
    LimitsAgree(data, offset, 7);
    StringAgrees(data, offset, text);
  }

  /** The index of a late name outside the limits: too many octets, since it is an index of the table. */
  lemma IndexBeyond(data: seq<byte>, p: nat, n: nat)
    requires p < |data| && 1 <= n <= 8 && StdInt(data, p, n).Some? && StdInt(data, p, n).value.value < TWO_32
    requires !InLimits(data, p, n)
    ensures ReadInt(data, p, n) == BadShift
  {
    LimitsAgree(data, p, n);
    IntAgrees(data, p, n, StdInt(data, p, n).value);
  }

  lemma LateBeyond(data: seq<byte>, offset: nat, n: nat)
    requires offset + 1 < |data| && NamesByIndex(data[offset]) && n == NameBits(data[offset])
    requires TakenField(STATIC_TABLE, data, offset).Some? && !LateWithin(data, offset + 1, n)
    ensures !ReadAlike(data, offset)
  {
    assert Pow2(4) == 16 && Pow2(6) == 64;
    StaticTableSize();
    var index := StdInt(data, offset + 1, n).value;
    if !InLimits(data, offset + 1, n) {
      IndexBeyond(data, offset + 1, n);
    } else {
      IntRead(data, offset + 1, n);
      StringBeyond(data, index.next, StdString(data, index.next).value);
    }
  }

  lemma PlainBeyond(data: seq<byte>, offset: nat)
    requires offset < |data| && !NamesByIndex(data[offset]) && StdTurn(STATIC_TABLE, data, offset).Some?
    ensures WithinLimits(data, offset) <==> Narrow(data, offset)
  {
    assert Pow2(4) == 16 && Pow2(6) == 64;
    if data[offset] >= 0x80 {
      LimitsAgree(data, offset, 7);
    } else {
      LimitsAgree(data, offset + 1, 7);
      LimitsAgree(data, StdString(data, offset + 1).value.next, 7);
    }
  }

  /** Where that reading takes a field, the limits are exact. */
  lemma LimitsDecide(data: seq<byte>, offset: nat)
    requires offset < |data| && TakenField(STATIC_TABLE, data, offset).Some?
    ensures ReadAlike(data, offset) <==> WithinLimits(data, offset)
  {
    if WithinLimits(data, offset) {
      DecoderAccepts(data, offset);
    } else if NamesByIndex(data[offset]) {
      LateBeyond(data, offset, NameBits(data[offset]));
    } else {
      PlainBeyond(data, offset);
      DecoderFollowsStandard(data, offset);
    }
  }

  // ---------------------------------------------------------------- blocks

  /** The headers of a block that is a sequence of such fields. */
  function Reading(data: seq<byte>, offset: nat, headers: Headers): Option<Headers>
    requires offset <= |data|
    decreases |data| - offset
  {
    if offset == |data| then Some(headers)
    else
      match TakenField(STATIC_TABLE, data, offset)
      case None => None
      case Some(field) => Reading(data, field.next, headers[field.name := field.value])
  }

  predicate AllWithin(data: seq<byte>, offset: nat)
    requires offset <= |data|
    decreases |data| - offset
  {
    offset < |data| ==>
      WithinLimits(data, offset)
      && match TakenField(STATIC_TABLE, data, offset)
         case None => true
         case Some(field) => AllWithin(data, field.next)
  }

  /** No field of the block names by index. */
  predicate NoneByIndex(data: seq<byte>, offset: nat)
    requires offset <= |data|
    decreases |data| - offset
  {
    offset < |data| ==>
      !NamesByIndex(data[offset])
      && match TakenField(STATIC_TABLE, data, offset)
         case None => true
         case Some(field) => NoneByIndex(data, field.next)
  }

  /** A block is accepted exactly if it is such a sequence, and with exactly its headers. */
  lemma {:induction false} BlockAccepted(data: seq<byte>, offset: nat, headers: Headers)
    requires offset <= |data| && AllWithin(data, offset)
    ensures match Reading(data, offset, headers)
            case Some(read) => Decoding(STATIC_TABLE, data, offset, headers) == Decoded(read)
            case None => Decoding(STATIC_TABLE, data, offset, headers).Failed?
    decreases |data| - offset
  {
    if offset < |data| {
      DecoderAccepts(data, offset);
      match TakenField(STATIC_TABLE, data, offset)
      case Some(field) => BlockAccepted(data, field.next, headers[field.name := field.value]);
      case None =>
    }
  }

  lemma {:induction false} ReadingIsStandard(data: seq<byte>, offset: nat, headers: Headers)
    requires offset <= |data| && NoneByIndex(data, offset)
    ensures Reading(data, offset, headers) == StdDecoding(data, offset, headers)
    decreases |data| - offset
  {
    if offset < |data| && TakenField(STATIC_TABLE, data, offset).Some? {
      var field := TakenField(STATIC_TABLE, data, offset).value;
      ReadingIsStandard(data, field.next, headers[field.name := field.value]);
    }
  }

  /** Without indexed names the decoder accepts exactly the standard's blocks. */
  lemma BlockIsStandard(data: seq<byte>, headers: Headers)
    requires AllWithin(data, 0) && NoneByIndex(data, 0)
    ensures match StdDecoding(data, 0, headers)
            case Some(read) => Decoding(STATIC_TABLE, data, 0, headers) == Decoded(read)
            case None => Decoding(STATIC_TABLE, data, 0, headers).Failed?
  {
    BlockAccepted(data, 0, headers);
    ReadingIsStandard(data, 0, headers);
  }

  // ---------------------------------------------------------------- what the encoder writes

  lemma {:induction false} StdGroups(data: seq<byte>, offset: nat, v: nat)
    requires Holds(data, offset, Continuation(v))
    ensures StdContinuation(data, offset) == Some(Whole(v, offset + |Continuation(v)|))
    decreases v
  {
    HoldsFirst(data, offset, Continuation(v));
    if v >= 128 {
      assert Continuation(v) == [v % 128 + 128] + Continuation(v / 128);
      HoldsConcat(data, offset, [v % 128 + 128], Continuation(v / 128));
      StdGroups(data, offset + 1, v / 128);
    }
  }

  /** An integer with a prefix of seven bits, whatever the top bit. */
  lemma SevenBits(data: seq<byte>, offset: nat, value: nat)
    requires offset < |data| && data[offset] % 128 == PrefixInt(value, 7)[0]
    requires Holds(data, offset + 1, PrefixInt(value, 7)[1..])
    ensures StdInt(data, offset, 7) == Some(Whole(value, offset + |PrefixInt(value, 7)|))
  {
    assert Pow2(7) == 128;
    if value >= 127 {
      assert PrefixInt(value, 7) == [127] + Continuation(value - 127);
      assert PrefixInt(value, 7)[1..] == Continuation(value - 127);
      StdGroups(data, offset + 1, value - 127);
    }
  }

  /** A prefix form in the data: its first octet, and the others behind it. */
  lemma Prefixed(data: seq<byte>, offset: nat, s: seq<byte>)
    requires s != [] && Holds(data, offset, s)
    ensures offset < |data| && data[offset] == s[0] && Holds(data, offset + 1, s[1..])
  {
    HoldsFirst(data, offset, s);
    assert s == [s[0]] + s[1..];
    HoldsConcat(data, offset, [s[0]], s[1..]);
  }

  lemma SizeWritten(data: seq<byte>, offset: nat, value: nat)
    requires Holds(data, offset, PrefixInt(value, 7))
    ensures offset < |data| && data[offset] < 128
    ensures StdInt(data, offset, 7) == Some(Whole(value, offset + |PrefixInt(value, 7)|))
  {
    assert Pow2(7) == 128;
    Prefixed(data, offset, PrefixInt(value, 7));
    SevenBits(data, offset, value);
  }

  lemma StdStringAt(data: seq<byte>, offset: nat, size: Whole, s: seq<byte>)
    requires offset < |data| && data[offset] < 128 && StdInt(data, offset, 7) == Some(size)
    requires size.value == |s| && Holds(data, size.next, s)
    ensures StdString(data, offset) == Some(StdText(s, size.next + |s|))
  {
  }

  lemma StdStringParts(data: seq<byte>, offset: nat, size: seq<byte>, s: seq<byte>)
    requires size == PrefixInt(|s|, 7) && Holds(data, offset, size + s)
    ensures offset + |size| + |s| <= |data|
    ensures StdString(data, offset) == Some(StdText(s, offset + |size| + |s|))
  {
    HoldsConcat(data, offset, size, s);
    SizeWritten(data, offset, |s|);
    StdStringAt(data, offset, Whole(|s|, offset + |size|), s);
  }

  lemma StdStringWritten(data: seq<byte>, offset: nat, s: seq<byte>, bytes: seq<byte>)
    requires |s| < TWO_32 && bytes == StringBytes(s) && Holds(data, offset, bytes)
    ensures offset + |bytes| <= |data| && StdString(data, offset) == Some(StdText(s, offset + |bytes|))
  {
    SmallMod(|s|);
    StdStringParts(data, offset, PrefixInt(|s|, 7), s);
  }

  lemma IndexWritten(table: seq<Entry>, data: seq<byte>, offset: nat, index: nat)
    requires 0 < index < |table| && Holds(data, offset, SetTopBit(PrefixInt(index, 7)))
    ensures offset < |data| && data[offset] >= 0x80
    ensures StdTurn(table, data, offset)
         == Some(StdField(table[index].name, table[index].value, offset + |PrefixInt(index, 7)|))
  {
    assert Pow2(7) == 128;
    var s := PrefixInt(index, 7);
    Prefixed(data, offset, SetTopBit(s));
    assert SetTopBit(s)[1..] == s[1..];
    SevenBits(data, offset, index);
  }

  lemma {:induction false} LookupExactly(table: seq<Entry>, h: Header, i: nat)
    requires 0 < i <= |table|
    ensures LookupFrom(table, h, i) != 0 <==> h in table[i..]
    ensures var r := LookupFrom(table, h, i); r != 0 ==> r < |table| && table[r] == h
    decreases |table| - i
  {
    if i < |table| {
      LookupExactly(table, h, i + 1);
      assert table[i..] == [table[i]] + table[i + 1..];
    }
  }

  lemma StdLiteralAt(table: seq<Entry>, data: seq<byte>, offset: nat, name: StdText, value: StdText)
    requires offset < |data| && data[offset] == 0x40
    requires StdString(data, offset + 1) == Some(name) && StdString(data, name.next) == Some(value)
    ensures StdTurn(table, data, offset) == Some(StdField(name.octets, value.octets, value.next))
  {
    assert Pow2(6) == 64;
  }

  lemma LiteralParts(data: seq<byte>, offset: nat, name: seq<byte>, value: seq<byte>)
    requires Holds(data, offset, [0x40] + (name + value))
    ensures offset < |data| && data[offset] == 0x40
    ensures Holds(data, offset + 1, name) && Holds(data, offset + 1 + |name|, value)
  {
    HoldsConcat(data, offset, [0x40], name + value);
    HoldsFirst(data, offset, [0x40]);
    HoldsConcat(data, offset + 1, name, value);
  }

  lemma LiteralWritten(table: seq<Entry>, data: seq<byte>, offset: nat, h: Header, name: seq<byte>, value: seq<byte>)
    requires Short(h) && name == StringBytes(h.name) && value == StringBytes(h.value)
    requires Holds(data, offset, [0x40] + (name + value))
    ensures offset < |data| && data[offset] == 0x40
    ensures StdTurn(table, data, offset) == Some(StdField(h.name, h.value, offset + 1 + |name| + |value|))
  {
    LiteralParts(data, offset, name, value);
    var middle := offset + 1 + |name|;
    StdStringWritten(data, offset + 1, h.name, name);
    StdStringWritten(data, middle, h.value, value);
    StdLiteralAt(table, data, offset, StdText(h.name, middle), StdText(h.value, middle + |value|));
  }

  /** An encoded header is, by the standard, that header: an index with the top bit set if the table has it
      whole, else a literal with incremental indexing, 0x40, a plain name and a plain value. */
  lemma EncoderFollowsStandard(table: seq<Entry>, data: seq<byte>, offset: nat, h: Header)
    requires 0 < |table| < TWO_31 && Short(h) && Holds(data, offset, FieldBytes(table, h))
    ensures offset < |data|
    ensures StdTurn(table, data, offset) == Some(StdField(h.name, h.value, offset + |FieldBytes(table, h)|))
    ensures if h in table[1..] then data[offset] >= 0x80 else data[offset] == 0x40
  {
    LookupExactly(table, h, 1);
    var index := LookupFrom(table, h, 1);
    if index > 0 {
      SmallMod(index);
      IndexWritten(table, data, offset, index);
    } else {
      LiteralWritten(table, data, offset, h, StringBytes(h.name), StringBytes(h.value));
    }
  }

  lemma OneWritten(data: seq<byte>, offset: nat, initial: Headers, h: Header, rest: seq<byte>, next: nat, after: Headers)
    requires Short(h) && after == initial[h.name := h.value]
    requires offset <= |data| && data[offset..] == FieldBytes(STATIC_TABLE, h) + rest
    requires next == offset + |FieldBytes(STATIC_TABLE, h)|
    ensures next <= |data| && data[next..] == rest
    ensures StdDecoding(data, offset, initial) == StdDecoding(data, next, after)
  {
    StaticTableSize();
    HoldsThenRest(data, offset, FieldBytes(STATIC_TABLE, h), rest);
    EncoderFollowsStandard(STATIC_TABLE, data, offset, h);
  }

  lemma {:induction false} HeadersWritten(data: seq<byte>, offset: nat, initial: Headers, headers: Headers,
                                          order: seq<seq<byte>>, i: nat)
    requires AllIn(order, headers) && AllShort(headers)
    requires offset <= |data| && data[offset..] == HeaderBytes(STATIC_TABLE, headers, order, i)
    ensures StdDecoding(data, offset, initial) == Some(Inserted(initial, headers, order, i))
    decreases |order| - i
  {
    if i < |order| {
      var h := Header(order[i], headers[order[i]]);
      var next := offset + |FieldBytes(STATIC_TABLE, h)|;
      var after := initial[order[i] := headers[order[i]]];
      OneWritten(data, offset, initial, h, HeaderBytes(STATIC_TABLE, headers, order, i + 1), next, after);
      HeadersWritten(data, next, after, headers, order, i + 1);
    } else {
      assert offset == |data|;
    }
  }

  /** Whoever decodes by the standard gets exactly the encoded headers. */
  lemma EncodedIsStandard(headers: Headers, order: seq<seq<byte>>)
    requires Enumerates(order, headers) && AllShort(headers)
    ensures StdDecoding(HeaderBytes(STATIC_TABLE, headers, order, 0), 0, map[]) == Some(headers)
  {
    var data := HeaderBytes(STATIC_TABLE, headers, order, 0);
    assert data[0..] == data;
    HeadersWritten(data, 0, map[], headers, order, 0);
    InsertedIsAll(headers, order);
  }
}
