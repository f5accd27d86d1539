/** The static table of zero/http/hpack.cc (RFC 7541, appendix A). */
module HpackTable {
  import opened Bytes

  datatype Header = Header(name: seq<byte>, value: seq<byte>)

  /** No string as long as what a 32-bit size cannot hold. */
  predicate Short(h: Header) {
    |h.name| < TWO_32 && |h.value| < TWO_32
  }

  type Entry = h: Header | Short(h) witness Header([], [])

  function Ascii(s: string): (r: seq<byte>)
    ensures |r| == |s|
  {
    seq(|s|, i requires 0 <= i < |s| => s[i] as int % 256)
  }

  function Plain(name: string): Entry
    requires |name| < TWO_32
  {
    Header(Ascii(name), [])
  }

  function Known(name: string, value: string): Entry
    requires |name| < TWO_32 && |value| < TWO_32
  {
    Header(Ascii(name), Ascii(value))
  }

  /** Entry 0 is not used. */
  const FIRST_ENTRIES: seq<Entry> := [
    Plain(""), Plain(":authority"), Known(":method", "GET"), Known(":method", "POST"), Known(":path", "/"),
    Known(":path", "/index.html"), Known(":scheme", "http"), Known(":scheme", "https"), Known(":status", "200"),
    Known(":status", "204"), Known(":status", "206"), Known(":status", "304"), Known(":status", "400"),
    Known(":status", "404"), Known(":status", "500")
  ]

  const ENTRIES_15: seq<Entry> := [
    Plain("accept-charset"), Known("accept-encoding", "gzip, deflate"), Plain("accept-language"),
    Plain("accept-ranges"), Plain("accept"), Plain("access-control-allow-origin"), Plain("age"), Plain("allow"),
    Plain("authorization"), Plain("cache-control"), Plain("content-disposition"), Plain("content-encoding")
  ]

  const ENTRIES_27: seq<Entry> := [
    Plain("content-language"), Plain("content-length"), Plain("content-location"), Plain("content-range"),
    Plain("content-type"), Plain("cookie"), Plain("date"), Plain("etag"), Plain("expect"), Plain("expires"),
    Plain("from"), Plain("host")
  ]

  const ENTRIES_39: seq<Entry> := [
    Plain("if-match"), Plain("if-modified-since"), Plain("if-none-match"), Plain("if-range"),
    Plain("if-unmodified-since"), Plain("last-modified"), Plain("link"), Plain("location"), Plain("max-forwards"),
    Plain("proxy-authenticate"), Plain("proxy-authorization"), Plain("range")
  ]

  const ENTRIES_51: seq<Entry> := [
    Plain("referer"), Plain("refresh"), Plain("retry-after"), Plain("server"), Plain("set-cookie"),
    Plain("strict-transport-security"), Plain("transfer-encoding"), Plain("user-agent"), Plain("vary"),
    Plain("via"), Plain("www-authenticate")
  ]

  const STATIC_TABLE: seq<Entry> := FIRST_ENTRIES + (ENTRIES_15 + (ENTRIES_27 + (ENTRIES_39 + ENTRIES_51)))

  lemma StaticTableSize()
    ensures |STATIC_TABLE| == 62
  {
  }

  const COLON: byte := 58

  predicate BeginsWithColon(e: Entry) {
    e.name != [] && e.name[0] == COLON
  }

  predicate BeginsOtherwise(e: Entry) {
    e.name != [] && e.name[0] != COLON
  }

  lemma FirstNames(i: nat)
    requires 1 <= i < 15
    ensures BeginsWithColon(FIRST_ENTRIES[i])
  {
    assert i < 5 || 5 <= i < 10 || 10 <= i;
  }

  lemma Names15(i: nat)
    requires i < |ENTRIES_15|
    ensures BeginsOtherwise(ENTRIES_15[i])
  {
    assert i < 4 || 4 <= i < 8 || 8 <= i < 12;
  }

  lemma Names27(i: nat)
    requires i < |ENTRIES_27|
    ensures BeginsOtherwise(ENTRIES_27[i])
  {
    assert i < 4 || 4 <= i < 8 || 8 <= i < 12;
  }

  lemma Names39(i: nat)
    requires i < |ENTRIES_39|
    ensures BeginsOtherwise(ENTRIES_39[i])
  {
    assert i < 4 || 4 <= i < 8 || 8 <= i < 12;
  }

  lemma Names51(i: nat)
    requires i < |ENTRIES_51|
    ensures BeginsOtherwise(ENTRIES_51[i])
  {
    assert i < 4 || 4 <= i < 8 || 8 <= i < 11;
  }

  /** The names that begin with a colon are those of the first entries. */
  lemma PseudoNames(i: nat)
    requires 1 <= i < 15
    ensures BeginsWithColon(STATIC_TABLE[i])
  {
    FirstNames(i);
  }

  lemma PlainNames(i: nat)
    requires 15 <= i < |STATIC_TABLE|
    ensures BeginsOtherwise(STATIC_TABLE[i])
  {
    if i < 27 {
      Names15(i - 15);
    } else if i < 39 {
      Names27(i - 27);
    } else if i < 51 {
      Names39(i - 39);
    } else {
      Names51(i - 51);
    }
  }
}
