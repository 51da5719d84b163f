/** lib_network/src/protocols/http2/frame_parser.cc: the resumable frame parser,
    against the frame layout of section 4.1 of RFC 9113. */
module Http2Frames {
  import opened Bytes
  import opened Memory

  const DATA: byte := 0x0
  const HEADERS: byte := 0x1
  const ID_SPACE := 0x8000_0000   // stream ids have 31 bits
  const LENGTH_SPACE := 0x100_0000 // lengths have 24 bits

  datatype Header = Header(length: nat, kind: byte, flags: byte, id: nat)

  datatype Frame = Frame(header: Header, payload: bytes)

  datatype ParserState = ReadingHeader | ReadingPayload(header: Header)

  /** The nine header bytes, with `reserved` as the unused top bit of the id. */
  function HeaderBytes(h: Header, reserved: bool): (b: bytes)
    ensures |b| == 9
  {
    Be24(h.length) + [h.kind, h.flags] + Be32(ReservedId(h.id, reserved))
  }

  function ReservedId(id: nat, reserved: bool): (word: nat)
    ensures word < 2 * ID_SPACE && word % ID_SPACE == id % ID_SPACE
  {
    id % ID_SPACE + if reserved then ID_SPACE else 0
  }

  function ReadHeader(b: bytes): (h: Header)
    requires |b| == 9
    ensures h.length < LENGTH_SPACE && h.id < ID_SPACE
  {
    Header(FromBe24(b[..3]), b[3], b[4], FromBe32(b[5..]) % ID_SPACE)
  }

  lemma HeaderRoundTrip(h: Header, reserved: bool)
    ensures ReadHeader(HeaderBytes(h, reserved)) == h.(length := h.length % LENGTH_SPACE, id := h.id % ID_SPACE)
  {
    hide Be24, Be32, FromBe24, FromBe32;
    var b, id := HeaderBytes(h, reserved), ReservedId(h.id, reserved);
    assert b[..3] == Be24(h.length) && b[5..] == Be32(id);
    assert FromBe24(b[..3]) == h.length % LENGTH_SPACE by { Be24RoundTrip(h.length); }
    assert FromBe32(b[5..]) == id by { Be32RoundTrip(id); }
  }

  /** The bit ReadHeader drops. */
  predicate ReservedBit(b: bytes)
    requires |b| == 9
  {
    FromBe32(b[5..]) >= ID_SPACE
  }

  lemma HeaderWritesBack(b: bytes)
    requires |b| == 9
    ensures b == HeaderBytes(ReadHeader(b), ReservedBit(b))
  {
    hide Be24, Be32, FromBe24, FromBe32;
    Be24WritesBack(b[..3]);
    Be32WritesBack(b[5..]);
    IdIsSplit(FromBe32(b[5..]));
    assert b == b[..3] + [b[3], b[4]] + b[5..];
  }

  lemma IdIsSplit(word: nat)
    requires word < 2 * ID_SPACE
    ensures word == ReservedId(word % ID_SPACE, word >= ID_SPACE)
  {
  }

  // ---- One call of Parse ----

  datatype ParseResult = ParseResult(frame: Option<Frame>, state: ParserState, rest: bytes)

  function ParsePayload(h: Header, buf: bytes): ParseResult {
    if |buf| < h.length then ParseResult(None, ReadingPayload(h), buf)
    else ParseResult(Some(Frame(h, buf[..h.length])), ReadingHeader, buf[h.length..])
  }

  function ParseOne(st: ParserState, buf: bytes): ParseResult {
    match st
    case ReadingHeader =>
      if |buf| < 9 then ParseResult(None, st, buf) else ParsePayload(ReadHeader(buf[..9]), buf[9..])
    case ReadingPayload(h) => ParsePayload(h, buf)
  }

  /** What a loop `while (Parse(...))` does to the parser and its buffer. */
  datatype Parsed = Parsed(frames: seq<Frame>, state: ParserState, rest: bytes)

  /** A successful Parse either takes bytes or, for an empty payload, leaves the
      payload state: the loop ends. */
  function Measure(st: ParserState, buf: bytes): nat {
    2 * |buf| + if st.ReadingPayload? then 1 else 0
  }

  function ParseAll(st: ParserState, buf: bytes): Parsed
    decreases Measure(st, buf)
  {
    var one := ParseOne(st, buf);
    if one.frame.None? then Parsed([], one.state, one.rest)
    else
      var more := ParseAll(one.state, one.rest);
      more.(frames := [one.frame.value] + more.frames)
  }

  lemma ParseOneShrinks(st: ParserState, buf: bytes)
    ensures
      var one := ParseOne(st, buf);
      if one.frame.Some? then Measure(one.state, one.rest) < Measure(st, buf)
      else ParseOne(one.state, one.rest) == one
  {
  }

  /** A delivered frame comes first, and the rest is parsed as if it came alone. */
  lemma ParseAllStep(st: ParserState, buf: bytes)
    requires ParseOne(st, buf).frame.Some?
    ensures
      var one := ParseOne(st, buf);
      ParseAll(st, buf).frames == [one.frame.value] + ParseAll(one.state, one.rest).frames
  {
  }

  // ---- Chunk independence ----

  lemma ParsePayloadAppend(h: Header, a: bytes, b: bytes)
    ensures
      var one := ParsePayload(h, a);
      if one.frame.Some? then ParsePayload(h, a + b) == one.(rest := one.rest + b)
      else one == ParseResult(None, ReadingPayload(h), a)
  {
    if h.length <= |a| {
      assert (a + b)[..h.length] == a[..h.length];
      assert (a + b)[h.length..] == a[h.length..] + b;
    }
  }

  /** One call of Parse on a buffer that later grows by b: a frame it delivers is
      the same frame, and if it delivers none the next call resumes as though the
      whole buffer had been there from the start. */
  lemma ParseOneAppend(st: ParserState, a: bytes, b: bytes)
    ensures
      var one := ParseOne(st, a);
      ParseOne(st, a + b) == if one.frame.Some? then one.(rest := one.rest + b) else ParseOne(one.state, one.rest + b)
  {
    match st
    case ReadingHeader =>
      if |a| >= 9 {
        assert (a + b)[..9] == a[..9];
        assert (a + b)[9..] == a[9..] + b;
        ParsePayloadAppend(ReadHeader(a[..9]), a[9..], b);
      }
    case ReadingPayload(h) => ParsePayloadAppend(h, a, b);
  }

  /** The parse loop is a homomorphism in its input: for any cut of any bytes, the
      frames of the parts are the frames of the whole, and state and leftover agree. */
  lemma {:induction false} ParseAllAppend(st: ParserState, a: bytes, b: bytes)
    ensures
      var first := ParseAll(st, a);
      var second := ParseAll(first.state, first.rest + b);
      ParseAll(st, a + b) == second.(frames := first.frames + second.frames)
    decreases Measure(st, a)
  {
    ParseOneAppend(st, a, b);
    ParseOneShrinks(st, a);
    hide ParseOne, Measure;
    var one := ParseOne(st, a);
    if one.frame.Some? {
      ParseAllAppend(one.state, one.rest, b);
      var first := ParseAll(one.state, one.rest);
      var second := ParseAll(first.state, first.rest + b);
      assert [one.frame.value] + (first.frames + second.frames) == ([one.frame.value] + first.frames) + second.frames;
    } else {
      var second := ParseAll(one.state, one.rest + b);
      assert [] + second.frames == second.frames;
    }
  }

  // ---- Conservation ----

  function FrameBytes(f: Frame, reserved: bool): bytes { HeaderBytes(f.header, reserved) + f.payload }

  function FramesBytes(frames: seq<Frame>, reserved: seq<bool>): bytes
    requires |frames| == |reserved|
  {
    if frames == [] then [] else FrameBytes(frames[0], reserved[0]) + FramesBytes(frames[1..], reserved[1..])
  }

  /** The header bytes a parser in the payload state has already absorbed. */
  function Absorbed(st: ParserState, reserved: bool): bytes {
    if st.ReadingPayload? then HeaderBytes(st.header, reserved) else []
  }

  ghost predicate Spells(p: Parsed, buf: bytes, bits: seq<bool>, last: bool) {
    |bits| == |p.frames| && buf == FramesBytes(p.frames, bits) + Absorbed(p.state, last) + p.rest
  }

  lemma SpellsCons(f: Frame, bit: bool, q: Parsed, rest: bytes, bits: seq<bool>, last: bool)
    requires Spells(q, rest, bits, last)
    ensures Spells(q.(frames := [f] + q.frames), FrameBytes(f, bit) + rest, [bit] + bits, last)
  {
    hide FrameBytes, Absorbed;
    FramesBytesCons(f, bit, q.frames, bits);
    Assoc(FrameBytes(f, bit), FramesBytes(q.frames, bits), Absorbed(q.state, last));
    Assoc(FrameBytes(f, bit), FramesBytes(q.frames, bits) + Absorbed(q.state, last), q.rest);
    SameAbsorbed(q, [f] + q.frames, last);
  }

  lemma SameAbsorbed(q: Parsed, frames: seq<Frame>, last: bool)
    ensures Absorbed(q.(frames := frames).state, last) == Absorbed(q.state, last)
  {
  }

  lemma FramesBytesCons(f: Frame, bit: bool, frames: seq<Frame>, bits: seq<bool>)
    requires |frames| == |bits|
    ensures FramesBytes([f] + frames, [bit] + bits) == FrameBytes(f, bit) + FramesBytes(frames, bits)
  {
    hide FrameBytes;
    assert ([f] + frames)[1..] == frames && ([bit] + bits)[1..] == bits;
  }

  lemma SpellsPartial(buf: bytes)
    requires 9 <= |buf| < 9 + ReadHeader(buf[..9]).length
    ensures Spells(ParseAll(ReadingHeader, buf), buf, [], ReservedBit(buf[..9]))
  {
    hide HeaderBytes, ReadHeader, ReservedBit;
    var h, bit := ReadHeader(buf[..9]), ReservedBit(buf[..9]);
    HeaderWritesBack(buf[..9]);
    assert ParseAll(ReadingHeader, buf) == Parsed([], ReadingPayload(h), buf[9..]);
    assert FramesBytes([], []) + HeaderBytes(h, bit) + buf[9..] == buf;
  }

  lemma FrameInFront(buf: bytes)
    requires 9 <= |buf| && 9 + ReadHeader(buf[..9]).length <= |buf|
    ensures
      var h := ReadHeader(buf[..9]);
      buf == FrameBytes(Frame(h, buf[9..][..h.length]), ReservedBit(buf[..9])) + buf[9..][h.length..]
  {
    hide HeaderBytes, ReadHeader, ReservedBit;
    var n := ReadHeader(buf[..9]).length;
    HeaderWritesBack(buf[..9]);
    assert buf[..9] + buf[9..] == buf && buf[9..][..n] + buf[9..][n..] == buf[9..];
    Assoc(buf[..9], buf[9..][..n], buf[9..][n..]);
  }

  lemma FrontParses(buf: bytes)
    requires 9 <= |buf| && 9 + ReadHeader(buf[..9]).length <= |buf|
    ensures
      var h := ReadHeader(buf[..9]);
      ParseOne(ReadingHeader, buf) == ParseResult(Some(Frame(h, buf[9..][..h.length])), ReadingHeader, buf[9..][h.length..])
  {
    hide ReadHeader;
  }

  lemma SpellsMore(buf: bytes, bits: seq<bool>, last: bool)
    requires 9 <= |buf| && 9 + ReadHeader(buf[..9]).length <= |buf|
    requires var rest := buf[9..][ReadHeader(buf[..9]).length..]; Spells(ParseAll(ReadingHeader, rest), rest, bits, last)
    ensures Spells(ParseAll(ReadingHeader, buf), buf, [ReservedBit(buf[..9])] + bits, last)
  {
    hide HeaderBytes, ReadHeader, ReservedBit, FrameBytes, ParseOne, Spells;
    var h, bit := ReadHeader(buf[..9]), ReservedBit(buf[..9]);
    var f, rest := Frame(h, buf[9..][..h.length]), buf[9..][h.length..];
    FrameInFront(buf);
    FrontParses(buf);
    SpellsCons(f, bit, ParseAll(ReadingHeader, rest), rest, bits, last);
  }

  /** Nothing is lost or invented: for some choice of the reserved bits, the frames
      written out again, the absorbed header and the leftover spell the input. */
  lemma {:induction false} ParseAllConserves(buf: bytes)
    ensures exists bits, last :: Spells(ParseAll(ReadingHeader, buf), buf, bits, last)
    decreases |buf|
  {
    if |buf| < 9 {
      assert Spells(ParseAll(ReadingHeader, buf), buf, [], false);
    } else if |buf| < 9 + ReadHeader(buf[..9]).length {
      SpellsPartial(buf);
    } else {
      var h := ReadHeader(buf[..9]);
      var rest := buf[9..][h.length..];
      ParseAllConserves(rest);
      var bits, last :| Spells(ParseAll(ReadingHeader, rest), rest, bits, last);
      SpellsMore(buf, bits, last);
    }
  }

  /** Reading what was written: any frame whose length field tells the truth. */
  lemma FrameRoundTrip(f: Frame, reserved: bool, rest: bytes)
    requires f.header.length == |f.payload| < LENGTH_SPACE && f.header.id < ID_SPACE
    ensures ParseOne(ReadingHeader, FrameBytes(f, reserved) + rest) == ParseResult(Some(f), ReadingHeader, rest)
  {
    hide HeaderBytes, ReadHeader;
    HeaderRoundTrip(f.header, reserved);
    var head, buf := HeaderBytes(f.header, reserved), FrameBytes(f, reserved) + rest;
    assert buf[..9] == head && buf[9..] == f.payload + rest;
    assert buf[9..][..f.header.length] == f.payload;
    assert buf[9..][f.header.length..] == rest;
  }

  // ---- The object ----

  class FrameParser {
    var readingPayload: bool     // state_
    var current: Header          // current_header_

    ghost function State(): ParserState
      reads this
    {
      if readingPayload then ReadingPayload(current) else ReadingHeader
    }

    constructor ()
      ensures State() == ReadingHeader
    {
      readingPayload, current := false, Header(0, 0, 0, 0);
    }

    method Parse(buf: Buffer) returns (frame: Option<Frame>)
      requires buf.Valid()
      modifies this, buf`reader, buf`writer
      ensures buf.Valid()
      ensures ParseResult(frame, State(), buf.Contents()) == ParseOne(old(State()), old(buf.Contents()))
    {
      hide FromBe24, FromBe32;
      if !readingPayload {
        if buf.ReadableBytes() < 9 {
          return None;
        }
        var data := buf.Peek()[..9];
        current := Header(FromBe24(data[..3]), data[3], data[4], FromBe32(data[5..]) % ID_SPACE);
        buf.Retrieve(9);
        readingPayload := true;
      }
      if buf.ReadableBytes() < current.length {
        return None;
      }
      frame := Some(Frame(current, buf.Peek()[..current.length]));
      buf.Retrieve(current.length);
      readingPayload := false;
    }
  }
}
