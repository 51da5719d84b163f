/** lib_network/src/protocols/http2/hpack.cc: the header encoder, against a decoder
    written from sections 5.1, 5.2, 6.1, 6.2.2 and 6.2.3 of RFC 7541. */
module Hpack {
  import opened Bytes
  import opened Bits

  /** A header map is given by its fields in iteration order, which for std::map
      is key order; nothing here depends on the order or on keys being distinct. */
  datatype Field = Field(name: bytes, value: bytes)

  const WORD := 0x1_0000_0000

  type PrefixBits = n: int | 1 <= n <= 8 witness 7

  // ---- Encoder ----

  function Continuation(v: nat): bytes {
    if v < 128 then [v] else [v % 128 + 128] + Continuation(v / 128)
  }

  /** A prefix integer whose prefix shares a byte with `back`. */
  function EncodeInt(back: byte, value: nat, n: PrefixBits): (b: bytes)
    ensures b != []
  {
    Pow2Bounds(n);
    if value < Pow2(n) - 1 then [Or(back, value)]
    else [Or(back, Pow2(n) - 1)] + Continuation(value - (Pow2(n) - 1))
  }

  lemma Pow2Bounds(n: PrefixBits)
    ensures 2 <= Pow2(n) <= 256
  {
    assert Pow2(1) == 2 && Pow2(2) == 4 && Pow2(3) == 8 && Pow2(4) == 16;
    assert Pow2(5) == 32 && Pow2(6) == 64 && Pow2(7) == 128 && Pow2(8) == 256;
  }

  /** The length is a 32-bit parameter. */
  function EncodeString(s: bytes): (b: bytes)
    ensures b != []
  {
    EncodeInt(0, |s| % WORD, 7) + s
  }

  function EncodeField(f: Field): bytes {
    if f == Field(Ascii(":method"), Ascii("POST")) then [0x83]
    else if f == Field(Ascii(":scheme"), Ascii("http")) then [0x86]
    else if f == Field(Ascii(":status"), Ascii("200")) then [0x88]
    else if f.name == Ascii(":path") then [4] + EncodeString(f.value)
    else if f.name == Ascii(":authority") then [1] + EncodeString(f.value)
    else [0] + EncodeString(f.name) + EncodeString(f.value)
  }

  function Encode(fields: seq<Field>): bytes {
    if fields == [] then [] else EncodeField(fields[0]) + Encode(fields[1..])
  }

  // ---- Decoder ----

  /** Appendix A of RFC 7541. */
  function StaticTable(i: nat): Option<(string, string)> {
    match i
    case 1 => Some((":authority", ""))
    case 2 => Some((":method", "GET"))
    case 3 => Some((":method", "POST"))
    case 4 => Some((":path", "/"))
    case 5 => Some((":path", "/index.html"))
    case 6 => Some((":scheme", "http"))
    case 7 => Some((":scheme", "https"))
    case 8 => Some((":status", "200"))
    case 9 => Some((":status", "204"))
    case 10 => Some((":status", "206"))
    case 11 => Some((":status", "304"))
    case 12 => Some((":status", "400"))
    case 13 => Some((":status", "404"))
    case 14 => Some((":status", "500"))
    case 15 => Some(("accept-charset", ""))
    case 16 => Some(("accept-encoding", "gzip, deflate"))
    case 17 => Some(("accept-language", ""))
    case 18 => Some(("accept-ranges", ""))
    case 19 => Some(("accept", ""))
    case 20 => Some(("access-control-allow-origin", ""))
    case 21 => Some(("age", ""))
    case 22 => Some(("allow", ""))
    case 23 => Some(("authorization", ""))
    case 24 => Some(("cache-control", ""))
    case 25 => Some(("content-disposition", ""))
    case 26 => Some(("content-encoding", ""))
    case 27 => Some(("content-language", ""))
    case 28 => Some(("content-length", ""))
    case 29 => Some(("content-location", ""))
    case 30 => Some(("content-range", ""))
    case 31 => Some(("content-type", ""))
    case 32 => Some(("cookie", ""))
    case 33 => Some(("date", ""))
    case 34 => Some(("etag", ""))
    case 35 => Some(("expect", ""))
    case 36 => Some(("expires", ""))
    case 37 => Some(("from", ""))
    case 38 => Some(("host", ""))
    case 39 => Some(("if-match", ""))
    case 40 => Some(("if-modified-since", ""))
    case 41 => Some(("if-none-match", ""))
    case 42 => Some(("if-range", ""))
    case 43 => Some(("if-unmodified-since", ""))
    case 44 => Some(("last-modified", ""))
    case 45 => Some(("link", ""))
    case 46 => Some(("location", ""))
    case 47 => Some(("max-forwards", ""))
    case 48 => Some(("proxy-authenticate", ""))
    case 49 => Some(("proxy-authorization", ""))
    case 50 => Some(("range", ""))
    case 51 => Some(("referer", ""))
    case 52 => Some(("refresh", ""))
    case 53 => Some(("retry-after", ""))
    case 54 => Some(("server", ""))
    case 55 => Some(("set-cookie", ""))
    case 56 => Some(("strict-transport-security", ""))
    case 57 => Some(("transfer-encoding", ""))
    case 58 => Some(("user-agent", ""))
    case 59 => Some(("vary", ""))
    case 60 => Some(("via", ""))
    case 61 => Some(("www-authenticate", ""))
    case _ => None
  }

  /** Octets of seven bits, least significant first, the last below 128. */
  function DecodeContinuation(b: bytes): (r: Option<(nat, bytes)>)
    ensures r.Some? ==> |r.value.1| < |b|
  {
    if b == [] then None
    else if b[0] < 128 then Some((b[0] as nat, b[1..]))
    else
      match DecodeContinuation(b[1..])
      case None => None
      case Some((high, rest)) => Some((b[0] - 128 + 128 * high, rest))
  }

  function DecodeInt(b: bytes, n: PrefixBits): (r: Option<(nat, bytes)>)
    ensures r.Some? ==> |r.value.1| < |b|
  {
    Pow2Bounds(n);
    if b == [] then None else DecodePrefixed(b[0] % Pow2(n), Pow2(n) - 1, b[1..])
  }

  function DecodePrefixed(prefix: nat, full: nat, b: bytes): (r: Option<(nat, bytes)>)
    ensures r.Some? ==> |r.value.1| <= |b|
  {
    if prefix < full then Some((prefix, b))
    else
      match DecodeContinuation(b)
      case None => None
      case Some((more, rest)) => Some((prefix + more, rest))
  }

  /** A string literal; the Huffman form, whose top bit is set, is not needed. */
  function DecodeString(b: bytes): (r: Option<(bytes, bytes)>)
    ensures r.Some? ==> |r.value.1| < |b|
  {
    if b == [] || b[0] >= 128 then None
    else
      match DecodeInt(b, 7)
      case None => None
      case Some((length, rest)) => if |rest| < length then None else Some((rest[..length], rest[length..]))
  }

  /** An indexed field, or a literal field without indexing or never indexed. The
      representations that use the dynamic table are not needed. */
  function DecodeField(b: bytes): (r: Option<(Field, bytes)>)
    ensures r.Some? ==> |r.value.1| < |b|
  {
    if b == [] then None
    else if b[0] >= 128 then
      match DecodeInt(b, 7)
      case None => None
      case Some((index, rest)) =>
        (match StaticTable(index)
         case None => None
         case Some((name, value)) => Some((Field(Ascii(name), Ascii(value)), rest)))
    else if b[0] >= 32 then None
    else
      match DecodeInt(b, 4)
      case None => None
      case Some((index, rest)) => DecodeLiteral(index, rest)
  }

  function DecodeLiteral(index: nat, b: bytes): (r: Option<(Field, bytes)>)
    ensures r.Some? ==> |r.value.1| < |b|
  {
    var named := if index == 0 then DecodeString(b)
                 else match StaticTable(index)
                      case None => None
                      case Some((name, _)) => Some((Ascii(name), b));
    match named
    case None => None
    case Some((name, rest)) =>
      match DecodeString(rest)
      case None => None
      case Some((value, last)) => Some((Field(name, value), last))
  }

  function Decode(b: bytes): Option<seq<Field>>
    decreases |b|
  {
    if b == [] then Some([])
    else match DecodeField(b)
      case None => None
      case Some((f, rest)) =>
        match Decode(rest)
        case None => None
        case Some(fields) => Some([f] + fields)
  }

  // ---- Round trips ----

  lemma {:induction false} ContinuationRoundTrip(v: nat, rest: bytes)
    ensures DecodeContinuation(Continuation(v) + rest) == Some((v, rest))
  {
    var b := Continuation(v) + rest;
    if v < 128 {
      assert b[1..] == rest;
    } else {
      ContinuationRoundTrip(v / 128, rest);
      assert b[1..] == Continuation(v / 128) + rest;
    }
  }

  /** A prefix integer reads back, whatever flag bits share its first byte and
      whatever bytes follow. */
  lemma IntRoundTrip(back: byte, value: nat, n: PrefixBits, rest: bytes)
    requires back % Pow2(n) == 0
    ensures DecodeInt(EncodeInt(back, value, n) + rest, n) == Some((value, rest))
  {
    hide Or, Pow2;
    Pow2Bounds(n);
    var code, b := EncodeInt(back, value, n), EncodeInt(back, value, n) + rest;
    PrefixReadsBack(back, Min(value, Pow2(n) - 1), n);
    assert code[0] == Or(back, Min(value, Pow2(n) - 1));
    assert b[1..] == code[1..] + rest;
    if value >= Pow2(n) - 1 {
      ContinuationRoundTrip(value - (Pow2(n) - 1), rest);
      assert code[1..] == Continuation(value - (Pow2(n) - 1));
    }
  }

  lemma PrefixReadsBack(back: byte, low: byte, n: PrefixBits)
    requires back % Pow2(n) == 0 && low < Pow2(n)
    ensures Or(back, low) % Pow2(n) == low
  {
    hide Or, Pow2;
    Pow2Bounds(n);
    OrDisjoint(back, low, n);
    ModOfSum(back, Pow2(n), low);
  }

  lemma SevenMoreBits(m: nat)
    ensures Pow2(m + 7) == 128 * Pow2(m)
  {
    assert Pow2(m + 1) == 2 * Pow2(m) && Pow2(m + 2) == 4 * Pow2(m) && Pow2(m + 3) == 8 * Pow2(m);
    assert Pow2(m + 4) == 16 * Pow2(m) && Pow2(m + 5) == 32 * Pow2(m) && Pow2(m + 6) == 64 * Pow2(m);
  }

  lemma {:induction false} ContinuationLength(v: nat, k: nat)
    requires v < Pow2(7 * k) && k > 0
    ensures |Continuation(v)| <= k
    decreases k
  {
    assert Pow2(7) == 128;
    if v >= 128 {
      assert k > 1;
      SevenMoreBits(7 * (k - 1));
      ContinuationLength(v / 128, k - 1);
    }
  }

  /** A 32-bit integer takes at most six bytes, prefix byte included. */
  lemma IntTakesAtMostSixBytes(back: byte, value: nat, n: PrefixBits)
    requires value < WORD
    ensures 1 <= |EncodeInt(back, value, n)| <= 6
  {
    Pow2Bounds(n);
    SevenMoreBits(7);
    SevenMoreBits(14);
    SevenMoreBits(21);
    SevenMoreBits(28);
    if value >= Pow2(n) - 1 {
      ContinuationLength(value - (Pow2(n) - 1), 5);
    }
  }

  lemma StringPrefix(s: bytes, rest: bytes)
    ensures EncodeString(s) != [] && EncodeString(s)[0] < 128
    ensures
      var r := DecodeInt(EncodeString(s) + rest, 7);
      r == Some((|s| % WORD, s + rest))
  {
    assert Pow2(7) == 128;
    var length := |s| % WORD;
    OrDisjoint(0, Min(length, 127), 7);
    IntRoundTrip(0, length, 7, s + rest);
    assert EncodeString(s) + rest == EncodeInt(0, length, 7) + (s + rest);
  }

  /** A string literal reads back, with any bytes after it. */
  lemma StringRoundTrip(s: bytes, rest: bytes)
    requires |s| < WORD
    ensures DecodeString(EncodeString(s) + rest) == Some((s, rest))
  {
    StringPrefix(s, rest);
    hide EncodeString, DecodeInt;
    assert EncodeString(s) != [] && (EncodeString(s) + rest)[0] == EncodeString(s)[0];
    assert (s + rest)[..|s|] == s && (s + rest)[|s|..] == rest;
  }

  /** A string literal reads back exactly when its length fits the 32-bit parameter. */
  lemma StringReadsBackIff(s: bytes)
    ensures DecodeString(EncodeString(s)) == Some((s, [])) <==> |s| < WORD
  {
    StringPrefix(s, []);
    assert EncodeString(s) + [] == EncodeString(s);
    if |s| < WORD {
      StringRoundTrip(s, []);
    }
  }

  predicate Encodable(f: Field) { |f.name| < WORD && |f.value| < WORD }

  lemma FieldRoundTrip(f: Field, rest: bytes)
    requires Encodable(f)
    ensures EncodeField(f) != []
    ensures DecodeField(EncodeField(f) + rest) == Some((f, rest))
  {
    hide EncodeString, DecodeString;
    var code, b := EncodeField(f), EncodeField(f) + rest;
    assert Pow2(7) == 128 && Pow2(4) == 16;
    if |code| == 1 {
      assert b[1..] == rest && b[0] as int % 128 == b[0] as int - 128;
      assert DecodeInt(b, 7) == Some((b[0] as int - 128, rest));
    } else if f.name == Ascii(":path") || f.name == Ascii(":authority") {
      StringRoundTrip(f.value, rest);
      assert b[1..] == EncodeString(f.value) + rest;
    } else {
      StringRoundTrip(f.value, rest);
      StringRoundTrip(f.name, EncodeString(f.value) + rest);
      assert b[1..] == EncodeString(f.name) + (EncodeString(f.value) + rest);
    }
  }

  /** Section 6.1 and 6.2.2 representations: one byte for the three fields taken whole from
      the static table, the name's index for the two names taken from it, and otherwise
      both strings. */
  lemma FieldIsCompact(f: Field)
    ensures
      var whole := f == Field(Ascii(":method"), Ascii("POST")) || f == Field(Ascii(":scheme"), Ascii("http"))
                   || f == Field(Ascii(":status"), Ascii("200"));
      && (whole <==> EncodeField(f)[0] >= 128) && (whole ==> |EncodeField(f)| == 1)
      && (!whole && (f.name == Ascii(":path") || f.name == Ascii(":authority")) ==>
            |EncodeField(f)| == 1 + |EncodeString(f.value)|)
      && (EncodeField(f)[0] < 16 || whole)
  {
    hide EncodeString;
  }

  /** Whatever headers are encoded, an RFC 7541 decoder reads the same headers in
      the same order: the concatenation of their codes is unambiguous. */
  lemma {:induction false} HeadersRoundTrip(fields: seq<Field>)
    requires forall f <- fields :: Encodable(f)
    ensures Decode(Encode(fields)) == Some(fields)
  {
    hide EncodeField, DecodeField;
    if fields == [] {
    } else {
      FieldRoundTrip(fields[0], Encode(fields[1..]));
      HeadersRoundTrip(fields[1..]);
      assert fields == [fields[0]] + fields[1..];
    }
  }

  // ---- The output vector ----

  class HpackEncoder {
    var out: bytes

    constructor ()
      ensures out == []
    {
      out := [];
    }

    /** ORs the prefix into the last byte and pushes the rest. */
    method PutInteger(value: nat, n: PrefixBits)
      requires out != [] && value < WORD
      modifies this
      ensures out == old(out)[..|old(out)| - 1] + EncodeInt(old(out)[|old(out)| - 1], value, n)
    {
      Pow2Bounds(n);
      var mask := Pow2(n) - 1;
      var last := |out| - 1;
      if value < mask {
        out := out[last := Or(out[last], value)];
      } else {
        out := out[last := Or(out[last], mask)];
        var v := value - mask;
        while v >= 128
          invariant v >= 0 && out + Continuation(v)
                 == old(out)[..last] + EncodeInt(old(out)[last], value, n)
        {
          assert out + Continuation(v) == out + [v % 128 + 128] + Continuation(v / 128);
          out := out + [v % 128 + 128];
          v := v / 128;
        }
        out := out + [v];
      }
    }

    method PutString(s: bytes)
      modifies this
      ensures out == old(out) + EncodeString(s)
    {
      out := out + [0];
      PutInteger(|s| % WORD, 7);
      assert out == old(out) + EncodeInt(0, |s| % WORD, 7);
      for i := 0 to |s|
        invariant out == old(out) + EncodeInt(0, |s| % WORD, 7) + s[..i]
      {
        out := out + [s[i]];
      }
    }

    method PutField(f: Field)
      modifies this
      ensures out == old(out) + EncodeField(f)
    {
      hide EncodeString, Ascii;
      if f.name == Ascii(":method") && f.value == Ascii("POST") {
        out := out + [0x83];
      } else if f.name == Ascii(":scheme") && f.value == Ascii("http") {
        out := out + [0x86];
      } else if f.name == Ascii(":status") && f.value == Ascii("200") {
        out := out + [0x88];
      } else if f.name == Ascii(":path") {
        out := out + [4];
        PutString(f.value);
      } else if f.name == Ascii(":authority") {
        out := out + [1];
        PutString(f.value);
      } else {
        out := out + [0];
        PutString(f.name);
        PutString(f.value);
      }
    }
  }

  method EncodeFields(fields: seq<Field>) returns (block: bytes)
    ensures block == Encode(fields)
  {
    hide EncodeField;
    var encoder := new HpackEncoder();
    for i := 0 to |fields|
      invariant encoder.out + Encode(fields[i..]) == Encode(fields)
    {
      encoder.PutField(fields[i]);
      assert fields[i..][1..] == fields[i + 1..];
    }
    return encoder.out;
  }
}
