/** Header fields as RFC 7541 spells them (sections 5 and 6; static table and plain strings), and exactly
    where the decoder of zero/http/hpack.cc follows it. */
module HpackStandard {
  import opened Options
  import opened Bytes
  import opened HpackTable
  import opened Hpack

  // ---------------------------------------------------------------- the standard

  /** An integer of any size, with the offset after it. */
  datatype Whole = Whole(value: nat, next: nat)

  /** Section 5.1: the continuation octets, low-order group first; none if they do not end. */
  function StdContinuation(data: seq<byte>, offset: nat): (r: Option<Whole>)
    requires offset <= |data|
    ensures r.Some? ==> offset < r.value.next <= |data|
    decreases |data| - offset
  {
    if offset == |data| then None
    else if data[offset] < 128 then Some(Whole(data[offset], offset + 1))
    else
      match StdContinuation(data, offset + 1)
      case None => None
      case Some(rest) => Some(Whole(data[offset] - 128 + 128 * rest.value, rest.next))
  }

  function StdInt(data: seq<byte>, offset: nat, n: nat): (r: Option<Whole>)
    requires offset < |data| && 1 <= n <= 8
    ensures r.Some? ==> offset < r.value.next <= |data|
  {
    var b := data[offset] % Pow2(n);
    if b < Mask(n) then Some(Whole(b, offset + 1))
    else
      match StdContinuation(data, offset + 1)
      case None => None
      case Some(rest) => Some(Whole(Mask(n) + rest.value, rest.next))
  }

  datatype StdText = StdText(octets: seq<byte>, next: nat)

  /** Section 5.2, without the Huffman code. */
  function StdString(data: seq<byte>, offset: nat): (r: Option<StdText>)
    requires offset <= |data|
    ensures r.Some? ==> offset < r.value.next <= |data|
  {
    if offset == |data| || data[offset] >= 128 then None
    else
      match StdInt(data, offset, 7)
      case None => None
      case Some(size) =>
        if size.next + size.value > |data| then None
        else Some(StdText(data[size.next..size.next + size.value], size.next + size.value))
  }

  datatype StdField = StdField(name: seq<byte>, value: seq<byte>, next: nat)

  /** Section 6.2: the prefix of `n` bits holds the index of the name, or 0 before a literal name. */
  function StdName(table: seq<Entry>, data: seq<byte>, offset: nat, n: nat): (r: Option<StdText>)
    requires offset < |data| && 1 <= n <= 8
    ensures r.Some? ==> offset < r.value.next <= |data|
  {
    if data[offset] % Pow2(n) == 0 then StdString(data, offset + 1)
    else
      match StdInt(data, offset, n)
      case None => None
      case Some(index) => if index.value >= |table| then None else Some(StdText(table[index.value].name, index.next))
  }

  function StdLiteral(table: seq<Entry>, data: seq<byte>, offset: nat, n: nat): (r: Option<StdField>)
    requires offset < |data| && 1 <= n <= 8
    ensures r.Some? ==> offset < r.value.next <= |data|
  {
    match StdName(table, data, offset, n)
    case None => None
    case Some(name) =>
      match StdString(data, name.next)
      case None => None
      case Some(value) => Some(StdField(name.octets, value.octets, value.next))
  }

  /** Section 6: an indexed field (6.1), a literal with incremental indexing (6.2.1), without it or never
      to be indexed (6.2.2, 6.2.3). A size update of the dynamic table (6.3) is no field. */
  function StdTurn(table: seq<Entry>, data: seq<byte>, offset: nat): (r: Option<StdField>)
    requires offset < |data|
    ensures r.Some? ==> offset < r.value.next <= |data|
  {
    var b := data[offset];
    if b >= 0x80 then
      match StdInt(data, offset, 7)
      case None => None
      case Some(index) =>
        if index.value == 0 || index.value >= |table| then None
        else Some(StdField(table[index.value].name, table[index.value].value, index.next))
    else if b >= 0x40 then StdLiteral(table, data, offset, 6)
    else if b < 0x20 then StdLiteral(table, data, offset, 4)
    else None
  }

  // ---------------------------------------------------------------- integers

  /** One group more: what the decoder adds up, modulo 2^32. */
  lemma GroupStep(v: nat, d: nat, rest: nat, p: nat)
    ensures ((v + d * p) % TWO_32 + rest * (128 * p)) % TWO_32 == (v + (d + 128 * rest) * p) % TWO_32
  {
    ModAdd(v + d * p, rest * (128 * p));
    assert (d + 128 * rest) * p == d * p + rest * (128 * p);
  }

  lemma ModAdd(a: nat, b: nat)
    ensures (a % TWO_32 + b) % TWO_32 == (a + b) % TWO_32
  {
  }

  lemma SevenMore(m: nat)
    ensures Pow2(m + 7) == 128 * Pow2(m)
  {
    assert Pow2(m + 7) == 2 * Pow2(m + 6) && Pow2(m + 6) == 2 * Pow2(m + 5) && Pow2(m + 5) == 2 * Pow2(m + 4);
    assert Pow2(m + 4) == 2 * Pow2(m + 3) && Pow2(m + 3) == 2 * Pow2(m + 2) && Pow2(m + 2) == 2 * Pow2(m + 1);
  }

  /** What the decoder makes of continuation octets that end: at most five of them, modulo 2^32. */
  function Capped(v: nat, p: nat, whole: Whole, used: nat): Number {
    if used <= 5 then Number((v + whole.value * p) % TWO_32, whole.next) else BadShift
  }

  lemma CappedStep(v: nat, p: nat, q: nat, d: nat, rest: Whole, whole: Whole, used: nat)
    requires q == 128 * p && whole == Whole(d + 128 * rest.value, rest.next)
    ensures Capped((v + d * p) % TWO_32, q, rest, used) == Capped(v, p, whole, used)
  {
    GroupStep(v, d, rest.value, p);
  }

  lemma ReadsGroup(data: seq<byte>, offset: nat, v: nat, m: nat, p: nat, d: nat)
    requires offset < |data| && m < 32 && p == Pow2(m) && data[offset] == d + 128
    ensures ReadContinuation(data, offset, v, m) == ReadContinuation(data, offset + 1, (v + d * p) % TWO_32, m + 7)
  {
    assert data[offset] % 128 == d;
  }

  lemma {:induction false} ContinuationAgrees(data: seq<byte>, offset: nat, v: nat, j: nat, p: nat, whole: Whole)
    requires offset <= |data| && j <= 5 && p == Pow2(7 * j) && StdContinuation(data, offset) == Some(whole)
    ensures ReadContinuation(data, offset, v, 7 * j) == Capped(v, p, whole, whole.next - offset + j)
    decreases |data| - offset
  {
    if j < 5 && data[offset] >= 128 {
      var rest := StdContinuation(data, offset + 1).value;
      var d := data[offset] - 128;
      ReadsGroup(data, offset, v, 7 * j, p, d);
      SevenMore(7 * j);
      assert 7 * (j + 1) == 7 * j + 7;
      ContinuationAgrees(data, offset + 1, (v + d * p) % TWO_32, j + 1, 128 * p, rest);
      CappedStep(v, p, 128 * p, d, rest, whole, whole.next - offset + j);
    }
  }

  /** The decoder's limits on an integer: six octets in all, and 32 bits. */
  predicate NarrowInt(data: seq<byte>, offset: nat, n: nat)
    requires offset < |data| && 1 <= n <= 8
  {
    match StdInt(data, offset, n)
    case None => false
    case Some(whole) => whole.next - offset <= 6 && whole.value < TWO_32
  }

  lemma IntAgrees(data: seq<byte>, offset: nat, n: nat, whole: Whole)
    requires offset < |data| && 1 <= n <= 8 && StdInt(data, offset, n) == Some(whole)
    ensures ReadInt(data, offset, n)
         == if whole.next - offset <= 6 then Number(whole.value % TWO_32, whole.next) else BadShift
  {
    var b := data[offset] % Pow2(n);
    if b < Mask(n) {
      assert whole == Whole(b, offset + 1);
    } else {
      Saturated(data, offset, n);
      var rest := StdContinuation(data, offset + 1).value;
      SaturatedAgrees(data, offset + 1, Mask(n), rest);
      assert whole == Whole(Mask(n) + rest.value, rest.next);
    }
  }

  lemma Saturated(data: seq<byte>, offset: nat, n: nat)
    requires offset < |data| && 1 <= n <= 8 && data[offset] % Pow2(n) >= Mask(n)
    ensures ReadInt(data, offset, n) == ReadContinuation(data, offset + 1, Mask(n), 0)
  {
  }

  lemma SaturatedAgrees(data: seq<byte>, offset: nat, v: nat, rest: Whole)
    requires offset <= |data| && StdContinuation(data, offset) == Some(rest)
    ensures ReadContinuation(data, offset, v, 0)
         == if rest.next - offset <= 5 then Number((v + rest.value) % TWO_32, rest.next) else BadShift
  {
    ContinuationAgrees(data, offset, v, 0, 1, rest);
    CappedOnce(v, rest, rest.next - offset);
  }

  lemma CappedOnce(v: nat, whole: Whole, used: nat)
    ensures Capped(v, 1, whole, used) == if used <= 5 then Number((v + whole.value) % TWO_32, whole.next) else BadShift
  {
  }

  // ---------------------------------------------------------------- strings

  predicate NarrowString(data: seq<byte>, offset: nat)
    requires offset <= |data|
  {
    offset < |data| && NarrowInt(data, offset, 7)
  }

  /** What the decoder makes of a string whose size it reads as `read`. */
  lemma SizeDecides(data: seq<byte>, offset: nat, text: StdText, size: Whole, read: Number)
    requires offset < |data| && StdString(data, offset) == Some(text)
    requires StdInt(data, offset, 7) == Some(size) && ReadInt(data, offset, 7) == read
    ensures read == Number(size.value, size.next) ==> ReadString(data, offset) == Text(text.octets, text.next)
    ensures read.Number? && read.value != size.value && ReadString(data, offset).Text?
        ==> |ReadString(data, offset).octets| != |text.octets|
    ensures read.BadShift? ==> ReadString(data, offset).NoText?
  {
  }

  /** A string is read as it is spelt exactly if its size is within the decoder's limits. */
  lemma StringAgrees(data: seq<byte>, offset: nat, text: StdText)
    requires offset <= |data| && StdString(data, offset) == Some(text)
    ensures NarrowString(data, offset) ==> ReadString(data, offset) == Text(text.octets, text.next)
    ensures !NarrowString(data, offset) && ReadString(data, offset).Text? ==> ReadString(data, offset).octets != text.octets
  {
    var size := StdInt(data, offset, 7).value;
    var read := ReadInt(data, offset, 7);
    IntAgrees(data, offset, 7, size);
    SizeDecides(data, offset, text, size, read);
    Wraps(size.value);
  }

  lemma Wraps(n: nat)
    ensures n % TWO_32 == n <==> n < TWO_32
  {
  }

  // ---------------------------------------------------------------- fields

  /** The octet begins a literal whose name is an index. */
  predicate NamesByIndex(b: byte) {
    (0x40 <= b < 0x80 && b % 0x40 != 0) || (b < 0x20 && b % 0x10 != 0)
  }

  /** Every integer of the field is within the decoder's limits. */
  predicate Narrow(data: seq<byte>, offset: nat)
    requires offset < |data|
  {
    if data[offset] >= 0x80 then NarrowInt(data, offset, 7)
    else
      && NarrowString(data, offset + 1)
      && StdString(data, offset + 1).Some? && NarrowString(data, StdString(data, offset + 1).value.next)
  }

  /** The decoder makes of the octets what the standard does. */
  predicate Follows(data: seq<byte>, offset: nat)
    requires offset < |data| && StdTurn(STATIC_TABLE, data, offset).Some?
  {
    var field := StdTurn(STATIC_TABLE, data, offset).value;
    var turn := TurnOf(STATIC_TABLE, data, offset);
    turn.Field? && turn.header == Header(field.name, field.value) && turn.next == field.next
  }

  lemma IndexedFollows(data: seq<byte>, offset: nat)
    requires offset < |data| && data[offset] >= 0x80 && StdTurn(STATIC_TABLE, data, offset).Some?
    ensures Follows(data, offset) <==> Narrow(data, offset)
  {
    var index := StdInt(data, offset, 7).value;
    StaticTableSize();
    IntAgrees(data, offset, 7, index);
    assert index.value % TWO_32 == index.value;
  }

  /** A literal with a literal name, read by the decoder. */
  lemma LiteralFollows(data: seq<byte>, offset: nat, low: nat, n: nat, name: StdText, value: StdText)
    requires offset <= |data| && low == 0 && 1 <= n <= 8
    requires StdString(data, offset) == Some(name) && StdString(data, name.next) == Some(value)
    ensures ReadLiteral(STATIC_TABLE, data, offset, low, n) == Field(Header(name.octets, value.octets), LiteralName, value.next)
       <==> NarrowString(data, offset) && NarrowString(data, name.next)
    ensures var turn := ReadLiteral(STATIC_TABLE, data, offset, low, n);
            turn.Field? && turn.header == Header(name.octets, value.octets) && turn.next == value.next ==>
              turn.form == LiteralName
  {
    StringAgrees(data, offset, name);
    StringAgrees(data, name.next, value);
  }

  // ---------------------------------------------------------------- names by index

  /** A string read from behind the size of another is not the other with the same end. */
  lemma LaterString(data: seq<byte>, q: nat, j: nat, text: StdText)
    requires q <= |data| && StdString(data, q) == Some(text)
    requires StdInt(data, q, 7).value.next <= j <= |data|
    ensures ReadString(data, j) != Text(text.octets, text.next)
  {
  }

  /** Whichever index the decoder reads at `p`, it is another name, or it is read from so far behind that
      the value cannot end where it should. */
  predicate Departs(data: seq<byte>, p: nat, n: nat, name: StdText)
    requires p <= |data| && 1 <= n <= 8 && name.next <= |data| && StdString(data, name.next).Some?
  {
    p < |data| ==>
      var index := ReadInt(data, p, n);
      index.Number? && 0 < index.value < |STATIC_TABLE| ==>
        || STATIC_TABLE[index.value].name != name.octets
        || StdInt(data, name.next, 7).value.next <= index.next
  }

  lemma DepartureShows(data: seq<byte>, p: nat, low: nat, n: nat, name: StdText, value: StdText)
    requires p <= |data| && 1 <= n <= 8 && low != 0 && name.next <= |data|
    requires StdString(data, name.next) == Some(value) && Departs(data, p, n, name)
    ensures var turn := ReadLiteral(STATIC_TABLE, data, p, low, n);
            !(turn.Field? && turn.header == Header(name.octets, value.octets) && turn.next == value.next)
  {
    if p < |data| {
      var index := ReadInt(data, p, n);
      if index.Number? && StdInt(data, name.next, 7).value.next <= index.next {
        LaterString(data, name.next, index.next, value);
      }
    }
  }

  /** The octet read as an index where a plain string begins: what follows it is behind that string's size. */
  lemma SkipsSize(data: seq<byte>, p: nat, n: nat, size: Whole)
    requires p < |data| && (n == 4 || n == 6) && data[p] < 128 && StdInt(data, p, 7) == Some(size)
    ensures ReadInt(data, p, n).Number? ==> size.next <= ReadInt(data, p, n).next
  {
    assert Pow2(4) == 16 && Pow2(6) == 64 && Pow2(7) == 128;
    if data[p] == 127 {
      assert data[p] % Pow2(n) == Mask(n);
      IntAgrees(data, p, n, StdInt(data, p, n).value);
    }
  }

  /** The index of the name fits the first octet. */
  lemma SmallIndexDeparts(data: seq<byte>, offset: nat, n: nat, name: StdText)
    requires offset < |data| && (n == 4 || n == 6) && 0 < data[offset] % Pow2(n) < Mask(n)
    requires StdName(STATIC_TABLE, data, offset, n) == Some(name) && StdString(data, name.next).Some?
    ensures Departs(data, offset + 1, n, name)
  {
    SkipsSize(data, offset + 1, n, StdInt(data, offset + 1, 7).value);
  }

  /** With six bits it has to: the next index is beyond the table. */
  lemma SixBitsSuffice(data: seq<byte>, offset: nat)
    requires offset < |data| && StdName(STATIC_TABLE, data, offset, 6).Some?
    ensures data[offset] % Pow2(6) < Mask(6)
  {
    StaticTableSize();
    assert Pow2(6) == 64;
  }

  /** At `p` the index of the name goes on, from a prefix of four bits; then comes a value. */
  predicate Continued(data: seq<byte>, p: nat, name: StdText, rest: Whole) {
    && p < |data| && StdContinuation(data, p) == Some(rest) && rest.value + 15 < |STATIC_TABLE|
    && name == StdText(STATIC_TABLE[rest.value + 15].name, rest.next) && StdString(data, rest.next).Some?
  }

  /** Four low bits that are not all ones name another entry than any index from 15 on. */
  lemma LowBitsDepart(data: seq<byte>, p: nat, name: StdText, rest: Whole)
    requires Continued(data, p, name, rest) && data[p] % 16 < 15
    ensures Departs(data, p, 4, name)
  {
    StaticTableSize();
    assert Pow2(4) == 16;
    PlainNames(rest.value + 15);
    if data[p] % 16 > 0 {
      PseudoNames(data[p] % 16);
    }
  }

  /** Four bits and one octet more, whose own low bits are all ones. */
  lemma OneMoreDeparts(data: seq<byte>, p: nat, name: StdText, rest: Whole)
    requires Continued(data, p, name, rest) && data[p] < 128 && data[p] % 16 == 15
    ensures Departs(data, p, 4, name)
  {
    StaticTableSize();
    if p + 1 < |data| {
      ReadsOneMore(data, p);
      if data[p + 1] < 127 {
        SmallSize(data, p + 1);
      }
    }
  }

  lemma SmallSize(data: seq<byte>, q: nat)
    requires q < |data| && data[q] < 127
    ensures StdInt(data, q, 7) == Some(Whole(data[q], q + 1))
  {
    assert Pow2(7) == 128;
  }

  lemma ReadsOneMore(data: seq<byte>, p: nat)
    requires p + 1 < |data| && data[p] % 16 == 15 && data[p + 1] < 128
    ensures ReadInt(data, p, 4) == Number(data[p + 1] + 15, p + 2)
  {
    assert Pow2(4) == 16;
    Saturated(data, p, 4);
    SaturatedAgrees(data, p + 1, 15, Whole(data[p + 1], p + 2));
  }

  lemma SmallContinuation(data: seq<byte>, p: nat, rest: Whole)
    requires p < |data| && data[p] >= 128 && StdContinuation(data, p) == Some(rest) && rest.value < 47
    ensures rest.value == data[p] - 128
    ensures StdContinuation(data, p + 1) == Some(Whole(0, rest.next))
  {
  }

  lemma NotFifteen(i: nat)
    requires i == 30 || i == 46
    ensures i < |STATIC_TABLE| && STATIC_TABLE[15].name != STATIC_TABLE[i].name
  {
    assert STATIC_TABLE[15] == ENTRIES_15[0] && STATIC_TABLE[30] == ENTRIES_27[3] && STATIC_TABLE[46] == ENTRIES_39[7];
    assert |ENTRIES_15[0].name| == 14 && |ENTRIES_27[3].name| == 13 && |ENTRIES_39[7].name| == 8;
  }

  /** The decoder takes such octets for the index 15. */
  lemma ReadsFifteen(data: seq<byte>, p: nat, rest: Whole)
    requires p < |data| && data[p] >= 128 && data[p] % 16 == 15
    requires StdContinuation(data, p) == Some(rest) && rest.value < 47
    ensures rest.value == 15 || rest.value == 31
    ensures ReadInt(data, p, 4) == Number(15, rest.next) || ReadInt(data, p, 4) == BadShift
  {
    assert Pow2(4) == 16;
    SmallContinuation(data, p, rest);
    SaturatedAgrees(data, p + 1, 15, Whole(0, rest.next));
  }

  /** Four bits and two octets or more, the first with all ones in its low bits. */
  lemma MoreDeparts(data: seq<byte>, p: nat, name: StdText, rest: Whole)
    requires Continued(data, p, name, rest) && data[p] >= 128 && data[p] % 16 == 15
    ensures Departs(data, p, 4, name)
  {
    StaticTableSize();
    ReadsFifteen(data, p, rest);
    NotFifteen(rest.value + 15);
  }

  lemma SaturatedName(data: seq<byte>, offset: nat, name: StdText, rest: Whole)
    requires offset + 1 < |data| && data[offset] % Pow2(4) == Mask(4)
    requires StdName(STATIC_TABLE, data, offset, 4) == Some(name) && StdContinuation(data, offset + 1) == Some(rest)
    ensures rest.value + 15 < |STATIC_TABLE| && name == StdText(STATIC_TABLE[rest.value + 15].name, rest.next)
  {
    assert Pow2(4) == 16;
  }

  lemma ContinuedDeparts(data: seq<byte>, p: nat, name: StdText, rest: Whole)
    requires Continued(data, p, name, rest)
    ensures Departs(data, p, 4, name)
  {
    if data[p] % 16 < 15 {
      LowBitsDepart(data, p, name, rest);
    } else if data[p] < 128 {
      OneMoreDeparts(data, p, name, rest);
    } else {
      MoreDeparts(data, p, name, rest);
    }
  }

  /** The index of the name does not fit the four bits of the first octet. */
  lemma LargeIndexDeparts(data: seq<byte>, offset: nat, name: StdText)
    requires offset < |data| && data[offset] % Pow2(4) == Mask(4)
    requires StdName(STATIC_TABLE, data, offset, 4) == Some(name) && StdString(data, name.next).Some?
    ensures Departs(data, offset + 1, 4, name)
  {
    var rest := StdContinuation(data, offset + 1).value;
    SaturatedName(data, offset, name, rest);
    ContinuedDeparts(data, offset + 1, name, rest);
  }

  /** A literal with an indexed name, wherever the standard reads one. */
  lemma {:induction false} LiteralDeparts(data: seq<byte>, offset: nat, n: nat, name: StdText, value: StdText)
    requires offset < |data| && (n == 4 || n == 6) && data[offset] % Pow2(n) != 0
    requires StdName(STATIC_TABLE, data, offset, n) == Some(name) && StdString(data, name.next) == Some(value)
    ensures var turn := ReadLiteral(STATIC_TABLE, data, offset + 1, data[offset] % Pow2(n), n);
            !(turn.Field? && turn.header == Header(name.octets, value.octets) && turn.next == value.next)
  {
    if data[offset] % Pow2(n) < Mask(n) {
      SmallIndexDeparts(data, offset, n, name);
    } else if n == 4 {
      LargeIndexDeparts(data, offset, name);
    } else {
      SixBitsSuffice(data, offset);
    }
    DepartureShows(data, offset + 1, data[offset] % Pow2(n), n, name, value);
  }

  lemma LiteralExactly(data: seq<byte>, offset: nat, n: nat)
    requires offset < |data| && data[offset] < 0x80 && StdTurn(STATIC_TABLE, data, offset).Some?
    requires n == if data[offset] >= 0x40 then 6 else 4
    ensures Follows(data, offset) <==> !NamesByIndex(data[offset]) && Narrow(data, offset)
  {
    assert Pow2(4) == 16 && Pow2(6) == 64;
    var name := StdName(STATIC_TABLE, data, offset, n).value;
    var value := StdString(data, name.next).value;
    if data[offset] % Pow2(n) == 0 {
      LiteralFollows(data, offset + 1, 0, n, name, value);
    } else {
      LiteralDeparts(data, offset, n, name, value);
    }
  }

  /** Wherever the standard reads a field, the decoder reads the same field, with the same end, exactly if
      the field is not a literal with an indexed name and its integers are within the decoder's limits. */
  lemma DecoderFollowsStandard(data: seq<byte>, offset: nat)
    requires offset < |data| && StdTurn(STATIC_TABLE, data, offset).Some?
    ensures Follows(data, offset) <==> !NamesByIndex(data[offset]) && Narrow(data, offset)
  {
    if data[offset] >= 0x80 {
      IndexedFollows(data, offset);
    } else {
      LiteralExactly(data, offset, if data[offset] >= 0x40 then 6 else 4);
    }
  }

  /** The headers of a block that is a sequence of fields. */
  function StdDecoding(data: seq<byte>, offset: nat, headers: map<seq<byte>, seq<byte>>): (r: Option<map<seq<byte>, seq<byte>>>)
    requires offset <= |data|
    decreases |data| - offset
  {
    if offset == |data| then Some(headers)
    else
      match StdTurn(STATIC_TABLE, data, offset)
      case None => None
      case Some(field) => StdDecoding(data, field.next, headers[field.name := field.value])
  }

  /** No field of the block names by index or goes beyond the decoder's limits. */
  predicate Plainly(data: seq<byte>, offset: nat)
    requires offset <= |data|
    decreases |data| - offset
  {
    offset == |data| ||
      (match StdTurn(STATIC_TABLE, data, offset)
       case None => true
       case Some(field) => !NamesByIndex(data[offset]) && Narrow(data, offset) && Plainly(data, field.next))
  }

  /** Such a block means to the decoder what it means by the standard. */
  lemma {:induction false} BlockFollows(data: seq<byte>, offset: nat, headers: map<seq<byte>, seq<byte>>)
    requires offset <= |data| && Plainly(data, offset) && StdDecoding(data, offset, headers).Some?
    ensures Decoding(STATIC_TABLE, data, offset, headers) == Decoded(StdDecoding(data, offset, headers).value)
    decreases |data| - offset
  {
    if offset < |data| {
      var field := StdTurn(STATIC_TABLE, data, offset).value;
      DecoderFollowsStandard(data, offset);
      BlockFollows(data, field.next, headers[field.name := field.value]);
    }
  }

  predicate Spelt(data: seq<byte>) {
    data == [0x41, 0x05, 0x01, 97, 98, 99, 100]
  }

  lemma SpeltForStandard(data: seq<byte>)
    requires Spelt(data)
    ensures StdTurn(STATIC_TABLE, data, 0) == Some(StdField(Ascii(":authority"), [0x01, 97, 98, 99, 100], 7))
  {
    StaticTableSize();
    assert Pow2(6) == 64 && Pow2(7) == 128;
    assert StdInt(data, 0, 6) == Some(Whole(1, 1)) && StdInt(data, 1, 7) == Some(Whole(5, 2));
    assert data[2..7] == [0x01, 97, 98, 99, 100];
  }

  /** The standard's `:authority` with five octets of value is accepted as `:path` with one, and the rest
      of the value is left for the next field. */
  lemma ReadAsAnother(data: seq<byte>)
    requires Spelt(data)
    ensures StdTurn(STATIC_TABLE, data, 0) == Some(StdField(Ascii(":authority"), [0x01, 97, 98, 99, 100], 7))
    ensures TurnOf(STATIC_TABLE, data, 0) == Field(Header(Ascii(":path"), [97]), IndexedName, 4)
  {
    SpeltForStandard(data);
    StaticTableSize();
    SpeltForDecoder(data);
  }

  /** Other spellings are rejected, or make the decoder read past the block: `:authority` with an empty
      value, and the first octet of it alone. */
  lemma IndexedNamesDepart()
    ensures TurnOf(STATIC_TABLE, [0x41, 0x00], 0) == Stop(Malformed)
    ensures TurnOf(STATIC_TABLE, [0x41], 0) == Stop(OutOfBounds)
  {
    assert Pow2(6) == 64;
  }

  lemma SpeltForDecoder(data: seq<byte>)
    requires Spelt(data)
    ensures ReadIndexedName(STATIC_TABLE, data, 1, 6) == Text(Ascii(":path"), 2)
    ensures ReadString(data, 2) == Text([97], 4)
  {
    StaticTableSize();
    assert Pow2(6) == 64 && Pow2(7) == 128;
    assert ReadInt(data, 1, 6) == Number(5, 2) && ReadInt(data, 2, 7) == Number(1, 3);
    assert data[3..4] == [97];
  }
}
