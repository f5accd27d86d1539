/** What zero/http/hpack.cc promises: the decoder undoes the encoder. */
module HpackRoundTrip {
  import opened Bytes
  import opened HpackTable
  import opened Hpack

  /** `s` stands in `data` at `offset`, whatever comes before and after. */
  predicate Holds(data: seq<byte>, offset: nat, s: seq<byte>) {
    offset + |s| <= |data| && data[offset..offset + |s|] == s
  }

  lemma HoldsConcat(data: seq<byte>, offset: nat, a: seq<byte>, b: seq<byte>)
    requires Holds(data, offset, a + b)
    ensures Holds(data, offset, a) && Holds(data, offset + |a|, b)
  {
    var s := data[offset..offset + |a + b|];
    assert s[..|a|] == (a + b)[..|a|] == a;
    assert s[|a|..] == (a + b)[|a|..] == b;
  }

  lemma HoldsThenRest(data: seq<byte>, offset: nat, a: seq<byte>, b: seq<byte>)
    requires offset <= |data| && data[offset..] == a + b
    ensures Holds(data, offset, a) && data[offset + |a|..] == b
  {
    assert data[offset..|data|] == data[offset..];
    HoldsConcat(data, offset, a, b);
    assert data[offset + |a|..|data|] == data[offset + |a|..];
  }

  lemma HoldsFirst(data: seq<byte>, offset: nat, s: seq<byte>)
    requires Holds(data, offset, s) && |s| > 0
    ensures offset < |data| && data[offset] == s[0]
  {
    assert data[offset..offset + |s|][0] == s[0];
  }

  // ---------------------------------------------------------------- integers

  lemma TimesPow2(m: nat)
    ensures Pow2(m + 7) == 128 * Pow2(m)
  {
    assert Pow2(m + 7) == 2 * Pow2(m + 6) == 4 * Pow2(m + 5) == 8 * Pow2(m + 4);
    assert Pow2(m + 4) == 2 * Pow2(m + 3) == 4 * Pow2(m + 2) == 8 * Pow2(m + 1);
  }

  lemma SplitProduct(v: nat, p: nat)
    ensures v * p == v % 128 * p + v / 128 * (128 * p)
  {
    var q, r := v / 128, v % 128;
    assert (q * 128 + r) * p == q * (128 * p) + r * p;
  }

  lemma {:induction false} Pow2Reaches(m: nat)
    requires m >= 32
    ensures Pow2(m) >= TWO_32
  {
    if m == 32 {
      assert Pow2(0) == 1;
      TimesPow2(0);
      TimesPow2(7);
      TimesPow2(14);
      TimesPow2(21);
      assert Pow2(32) == 2 * Pow2(31) == 4 * Pow2(30) == 8 * Pow2(29) == 16 * Pow2(28);
    } else {
      Pow2Reaches(m - 1);
    }
  }

  lemma SmallMod(x: nat)
    requires x < TWO_32
    ensures x % TWO_32 == x
  {
  }

  /** A continuation octet that does not overflow. */
  lemma ReadStep(data: seq<byte>, offset: nat, value: nat, m: nat, group: nat, sum: nat)
    requires offset < |data| && data[offset] % 128 == group && m < 32
    requires sum == value + group * Pow2(m) && sum < TWO_32
    ensures ReadContinuation(data, offset, value, m)
            == if data[offset] < 128 then Number(sum, offset + 1) else ReadContinuation(data, offset + 1, sum, m + 7)
  {
    SmallMod(sum);
  }

  lemma Bounds(value: nat, m: nat, v: nat)
    requires value + v * Pow2(m) < TWO_32 && (v > 0 || m == 0)
    ensures m < 32 && value + v % 128 * Pow2(m) < TWO_32
    ensures value + v * Pow2(m) == value + v % 128 * Pow2(m) + v / 128 * Pow2(m + 7)
    ensures v < 128 ==> v % 128 == v
  {
    TimesPow2(m);
    SplitProduct(v, Pow2(m));
    if m >= 32 {
      Pow2Reaches(m);
    }
  }

  lemma {:induction false} ContinuationRead(data: seq<byte>, offset: nat, value: nat, m: nat, v: nat)
    requires Holds(data, offset, Continuation(v))
    requires value + v * Pow2(m) < TWO_32 && (v > 0 || m == 0)
    ensures ReadContinuation(data, offset, value, m)
            == Number(value + v * Pow2(m), offset + |Continuation(v)|)
    decreases v
  {
    HoldsFirst(data, offset, Continuation(v));
    Bounds(value, m, v);
    var sum := value + v % 128 * Pow2(m);
    ReadStep(data, offset, value, m, v % 128, sum);
    if v >= 128 {
      assert Continuation(v) == [v % 128 + 128] + Continuation(v / 128);
      HoldsConcat(data, offset, [v % 128 + 128], Continuation(v / 128));
      ContinuationRead(data, offset + 1, sum, m + 7, v / 128);
    }
  }

  /** The octet of a prefix with the bits above it set to `k`. */
  function Flagged(s: seq<byte>, n: nat, k: nat): seq<byte>
    requires 1 <= n <= 8 && |s| > 0 && s[0] <= Mask(n) && k * Pow2(n) + Mask(n) < 256
  {
    [s[0] + k * Pow2(n)] + s[1..]
  }

  lemma AtLeast(a: nat, p: nat)
    requires a > 0
    ensures a * p >= p
  {
    assert a * p == (a - 1) * p + p;
  }

  lemma SameRemainder(p: nat, q: int, r: nat, k: int, low: nat)
    requires r < p && low < p && q * p + r == k * p + low
    ensures r == low
  {
    var d := if q > k then q - k else k - q;
    assert d * p == if q > k then low - r else r - low;
    if d > 0 {
      AtLeast(d, p);
    }
  }

  lemma FlagsVanish(k: nat, p: nat, low: nat)
    requires low < p
    ensures (low + k * p) % p == low
  {
    var x := low + k * p;
    SameRemainder(p, x / p, x % p, k, low);
  }

  /** RFC 7541, section 5.1: for every prefix size, every 32-bit value, any bits above the prefix and any
      octets around it, the value is recovered and exactly its octets are consumed. */
  lemma IntegerRoundTrip(data: seq<byte>, offset: nat, value: nat, n: nat, k: nat)
    requires 1 <= n <= 8 && value < TWO_32 && k * Pow2(n) + Mask(n) < 256
    requires Holds(data, offset, Flagged(PrefixInt(value, n), n, k))
    ensures offset < |data| && ReadInt(data, offset, n) == Number(value, offset + |PrefixInt(value, n)|)
  {
    var s := PrefixInt(value, n);
    HoldsFirst(data, offset, Flagged(s, n, k));
    FlagsVanish(k, Pow2(n), s[0]);
    if value >= Mask(n) {
      var rest := value - Mask(n);
      assert s[1..] == Continuation(rest);
      HoldsConcat(data, offset, [s[0] + k * Pow2(n)], Continuation(rest));
      assert Pow2(0) == 1;
      ContinuationRead(data, offset + 1, Mask(n), 0, rest);
    }
  }

  // ---------------------------------------------------------------- strings and fields

  lemma NoFlags(value: nat, n: nat)
    requires 1 <= n <= 8
    ensures Flagged(PrefixInt(value, n), n, 0) == PrefixInt(value, n)
  {
    var s := PrefixInt(value, n);
    assert 0 * Pow2(n) == 0 && [s[0]] + s[1..] == s;
  }

  lemma TopFlag(value: nat)
    ensures Mask(7) == 127 && Pow2(7) == 128
    ensures SetTopBit(PrefixInt(value, 7)) == Flagged(PrefixInt(value, 7), 7, 1)
  {
    assert Pow2(7) == 128;
  }

  lemma PlainIntegerRoundTrip(data: seq<byte>, offset: nat, value: nat)
    requires value < TWO_32 && Holds(data, offset, PrefixInt(value, 7))
    ensures offset < |data| && data[offset] < 128
    ensures ReadInt(data, offset, 7) == Number(value, offset + |PrefixInt(value, 7)|)
  {
    HoldsFirst(data, offset, PrefixInt(value, 7));
    TopFlag(value);
    NoFlags(value, 7);
    IntegerRoundTrip(data, offset, value, 7, 0);
  }

  lemma StringAt(data: seq<byte>, offset: nat, next: nat, s: seq<byte>)
    requires offset < |data| && data[offset] < 128 && ReadInt(data, offset, 7) == Number(|s|, next)
    requires Holds(data, next, s)
    ensures ReadString(data, offset) == Text(s, next + |s|)
  {
  }

  /** A string literal comes back, and only it is consumed, when its size fits 32 bits. */
  lemma StringRoundTrip(data: seq<byte>, offset: nat, s: seq<byte>)
    requires |s| < TWO_32 && Holds(data, offset, StringBytes(s))
    ensures ReadString(data, offset) == Text(s, offset + |StringBytes(s)|)
  {
    SmallMod(|s|);
    var size := PrefixInt(|s|, 7);
    HoldsConcat(data, offset, size, s);
    PlainIntegerRoundTrip(data, offset, |s|);
    StringAt(data, offset, offset + |size|, s);
  }

  lemma {:induction false} LookupFinds(table: seq<Entry>, h: Header, i: nat)
    requires i > 0
    ensures var r := LookupFrom(table, h, i); r != 0 ==> r < |table| && table[r] == h
    decreases |table| - i
  {
    if i < |table| && table[i] != h {
      LookupFinds(table, h, i + 1);
    }
  }

  /** One encoded header is one turn of the decoder, which reads it back and never takes a branch that
      looks a name up by index. */
  lemma FieldRoundTrip(table: seq<Entry>, data: seq<byte>, offset: nat, h: Header)
    requires |table| < TWO_31 && Short(h) && Holds(data, offset, FieldBytes(table, h))
    ensures offset < |data| && TurnOf(table, data, offset) == Field(h,
              if LookupFrom(table, h, 1) > 0 then Indexed else LiteralName, offset + |FieldBytes(table, h)|)
  {
    LookupFinds(table, h, 1);
    var index := LookupFrom(table, h, 1);
    if index > 0 {
      SmallMod(index);
      assert |SetTopBit(PrefixInt(index, 7))| == |PrefixInt(index, 7)|;
      IndexedRoundTrip(table, data, offset, index);
    } else {
      LiteralRoundTrip(table, data, offset, h);
    }
  }

  lemma IndexedRoundTrip(table: seq<Entry>, data: seq<byte>, offset: nat, index: nat)
    requires 0 < index < |table| < TWO_31 && Holds(data, offset, SetTopBit(PrefixInt(index, 7)))
    ensures offset < |data|
    ensures TurnOf(table, data, offset) == Field(table[index], Indexed, offset + |PrefixInt(index, 7)|)
  {
    TopFlag(index);
    HoldsFirst(data, offset, SetTopBit(PrefixInt(index, 7)));
    IntegerRoundTrip(data, offset, index, 7, 1);
  }

  lemma LiteralRoundTrip(table: seq<Entry>, data: seq<byte>, offset: nat, h: Header)
    requires Short(h) && Holds(data, offset, [0x40] + (StringBytes(h.name) + StringBytes(h.value)))
    ensures offset < |data|
    ensures TurnOf(table, data, offset)
            == Field(h, LiteralName, offset + 1 + |StringBytes(h.name)| + |StringBytes(h.value)|)
  {
    var name, value := StringBytes(h.name), StringBytes(h.value);
    HoldsConcat(data, offset, [0x40], name + value);
    HoldsFirst(data, offset, [0x40]);
    HoldsConcat(data, offset + 1, name, value);
    StringRoundTrip(data, offset + 1, h.name);
    StringRoundTrip(data, offset + 1 + |name|, h.value);
    LiteralAt(table, data, offset, h, offset + 1 + |name|, offset + 1 + |name| + |value|);
  }

  lemma LiteralAt(table: seq<Entry>, data: seq<byte>, offset: nat, h: Header, middle: nat, next: nat)
    requires offset < |data| && data[offset] == 0x40 && middle <= |data|
    requires ReadString(data, offset + 1) == Text(h.name, middle) && ReadString(data, middle) == Text(h.value, next)
    ensures TurnOf(table, data, offset) == Field(h, LiteralName, next)
  {
  }

  // ---------------------------------------------------------------- header maps

  type Headers = map<seq<byte>, seq<byte>>

  predicate AllShort(headers: Headers) {
    forall name <- headers :: Short(Header(name, headers[name]))
  }

  function Inserted(initial: Headers, headers: Headers, order: seq<seq<byte>>, i: nat): Headers
    requires AllIn(order, headers)
    decreases |order| - i
  {
    if i >= |order| then initial
    else Inserted(initial[order[i] := headers[order[i]]], headers, order, i + 1)
  }

  /** No turn of the decoder uses an indexed name, and none reads outside the block. */
  predicate NeverIndexesNames(table: seq<Entry>, data: seq<byte>, offset: nat)
    requires offset <= |data|
    decreases |data| - offset
  {
    offset < |data| ==>
      var t := TurnOf(table, data, offset);
      t.Field? && t.form != IndexedName && NeverIndexesNames(table, data, t.next)
  }

  lemma OneMore(table: seq<Entry>, data: seq<byte>, offset: nat, initial: Headers, h: Header,
                rest: seq<byte>, next: nat, after: Headers)
    requires |table| < TWO_31 && Short(h) && after == initial[h.name := h.value]
    requires offset <= |data| && data[offset..] == FieldBytes(table, h) + rest
    requires next == offset + |FieldBytes(table, h)|
    ensures next <= |data| && data[next..] == rest
    ensures Decoding(table, data, offset, initial) == Decoding(table, data, next, after)
    ensures NeverIndexesNames(table, data, offset) == NeverIndexesNames(table, data, next)
  {
    HoldsThenRest(data, offset, FieldBytes(table, h), rest);
    FieldRoundTrip(table, data, offset, h);
  }

  lemma {:induction false} HeadersDecode(table: seq<Entry>, data: seq<byte>, offset: nat, initial: Headers,
                                         headers: Headers, order: seq<seq<byte>>, i: nat)
    requires |table| < TWO_31 && AllIn(order, headers) && AllShort(headers)
    requires offset <= |data| && data[offset..] == HeaderBytes(table, headers, order, i)
    ensures Decoding(table, data, offset, initial) == Decoded(Inserted(initial, headers, order, i))
    ensures NeverIndexesNames(table, data, offset)
    decreases |order| - i
  {
    if i < |order| {
      var h := Header(order[i], headers[order[i]]);
      var next := offset + |FieldBytes(table, h)|;
      var after := initial[order[i] := headers[order[i]]];
      OneMore(table, data, offset, initial, h, HeaderBytes(table, headers, order, i + 1), next, after);
      HeadersDecode(table, data, next, after, headers, order, i + 1);
    } else {
      assert offset == |data|;
    }
  }

  lemma {:induction false} InsertedAgrees(initial: Headers, headers: Headers, order: seq<seq<byte>>, i: nat)
    requires AllIn(order, headers)
    requires forall name <- initial :: name in headers && initial[name] == headers[name]
    ensures var r := Inserted(initial, headers, order, i);
            && (forall name <- r :: name in headers && r[name] == headers[name])
            && (forall name <- initial :: name in r)
            && (forall j | i <= j < |order| :: order[j] in r)
    decreases |order| - i
  {
    if i < |order| {
      InsertedAgrees(initial[order[i] := headers[order[i]]], headers, order, i + 1);
    }
  }

  lemma InsertedIsAll(headers: Headers, order: seq<seq<byte>>)
    requires Enumerates(order, headers)
    ensures Inserted(map[], headers, order, 0) == headers
  {
    InsertedAgrees(map[], headers, order, 0);
  }

  lemma {:induction false} DecodedAreShort(table: seq<Entry>, data: seq<byte>, offset: nat, initial: Headers)
    requires offset <= |data| && AllShort(initial)
    ensures var r := Decoding(table, data, offset, initial); r.Decoded? ==> AllShort(r.headers)
    decreases |data| - offset
  {
    if offset < |data| {
      var t := TurnOf(table, data, offset);
      if t.Field? {
        DecodedAreShort(table, data, t.next, initial[t.header.name := t.header.value]);
      }
    }
  }

  /** Decoding what was encoded yields exactly the headers, in whatever order the map was walked, if and
      only if every name and value is shorter than 2^32. The turns then never look a name up by index. */
  lemma RoundTrip(table: seq<Entry>, headers: Headers, order: seq<seq<byte>>)
    requires |table| < TWO_31 && Enumerates(order, headers)
    ensures Decoding(table, HeaderBytes(table, headers, order, 0), 0, map[]) == Decoded(headers) <==> AllShort(headers)
    ensures AllShort(headers) ==> NeverIndexesNames(table, HeaderBytes(table, headers, order, 0), 0)
  {
    var data := HeaderBytes(table, headers, order, 0);
    DecodedAreShort(table, data, 0, map[]);
    if AllShort(headers) {
      assert data[0..] == data;
      HeadersDecode(table, data, 0, map[], headers, order, 0);
      InsertedIsAll(headers, order);
    }
  }

  /** With the table of the source: different header maps never share an encoding. */
  lemma EncodeInjective(a: Headers, orderA: seq<seq<byte>>, b: Headers, orderB: seq<seq<byte>>)
    requires Enumerates(orderA, a) && Enumerates(orderB, b) && AllShort(a) && AllShort(b)
    requires HeaderBytes(STATIC_TABLE, a, orderA, 0) == HeaderBytes(STATIC_TABLE, b, orderB, 0)
    ensures a == b
  {
    StaticTableSize();
    RoundTrip(STATIC_TABLE, a, orderA);
    RoundTrip(STATIC_TABLE, b, orderB);
  }
}
