/** lib_network/src/protocols/http/http_handler.cc: the incremental request parser,
    against the client's request printer in
    lib_network/include/network/core/client/protocols/http_protocol.h and the message
    syntax of sections 3, 5 and 6 of RFC 9112. */
module Http {
  import opened Bytes
  import opened Memory
  import opened HttpText

  datatype State = ExpectRequestLine | ExpectHeaders | ExpectBody | Done

  datatype Context = Context(
    state: State,
    verb: bytes,                 // method
    path: bytes,
    version: bytes,
    headers: map<bytes, bytes>,
    body: bytes
  )

  const FRESH := Context(ExpectRequestLine, [], [], [], map[], [])

  const CRLF: bytes := [CR, LF]

  function ContentLength(): bytes { Ascii("Content-Length") }

  /** ParseRequest returns true, returns false, or throws. */
  datatype Outcome = Complete | NeedsMore | Throws

  datatype Parsed = Parsed(outcome: Outcome, ctx: Context, rest: bytes)

  // ---- Lines ----

  /** The buffer cut at its first line end. */
  datatype Line = NoLine | Line(text: bytes, rest: bytes)

  function TakeLine(buf: bytes): (l: Line)
    ensures l.Line? ==> |l.rest| < |buf|
  {
    var i := CrlfAt(buf);
    if i == |buf| then NoLine else Line(buf[..i], buf[i + 2..])
  }

  function ColonAt(s: bytes): (i: nat)
    ensures i <= |s|
    ensures i < |s| ==> s[i] == COLON
    ensures forall j :: 0 <= j < i ==> s[j] != COLON
  {
    if s == [] || s[0] == COLON then 0 else 1 + ColonAt(s[1..])
  }

  /** A header line without a colon is skipped; one that ends at its colon makes
      substr throw. */
  datatype Field = Skipped | Field(key: bytes, value: bytes) | BadSubstr

  function ReadField(line: bytes): Field {
    var colon := ColonAt(line);
    if colon == |line| then Skipped
    else if colon + 2 > |line| then BadSubstr
    else
      var value := line[colon + 2..];
      Field(line[..colon], if value != [] && value[|value| - 1] == CR then value[..|value| - 1] else value)
  }

  // ---- The parser ----

  function ReadRequestLine(ctx: Context, line: bytes): Context {
    var (verb, r1) := ReadWord(line, ctx.verb);
    var (path, r2) := ReadWord(r1, ctx.path);
    var (version, _) := ReadWord(r2, ctx.version);
    ctx.(verb := verb, path := path, version := version, state := ExpectHeaders)
  }

  function ParseBody(ctx: Context, buf: bytes): Parsed {
    var length := Stoi(if ContentLength() in ctx.headers then ctx.headers[ContentLength()] else []);
    match length
    case None => Parsed(Throws, ctx, buf)
    case Some(n) =>
      // A negative length becomes a size_t no buffer reaches.
      if 0 <= n <= |buf| then Parsed(Complete, ctx.(body := buf[..n], state := Done), buf[n..])
      else Parsed(NeedsMore, ctx, buf)
  }

  function ParseHeaders(ctx: Context, buf: bytes): Parsed
    decreases |buf|
  {
    match TakeLine(buf)
    case NoLine => Parsed(NeedsMore, ctx, buf)
    case Line(text, rest) =>
      if text == [] then
        if ContentLength() in ctx.headers then ParseBody(ctx.(state := ExpectBody), rest)
        else Parsed(Complete, ctx.(state := Done), rest)
      else match ReadField(text)
        case Skipped => ParseHeaders(ctx, rest)
        case Field(key, value) => ParseHeaders(ctx.(headers := ctx.headers[key := value]), rest)
        case BadSubstr => Parsed(Throws, ctx, rest)
  }

  function ParseRequest(ctx: Context, buf: bytes): Parsed {
    match ctx.state
    case ExpectRequestLine =>
      (match TakeLine(buf)
       case NoLine => Parsed(NeedsMore, ctx, buf)
       case Line(text, rest) => ParseHeaders(ReadRequestLine(ctx, text), rest))
    case ExpectHeaders => ParseHeaders(ctx, buf)
    case ExpectBody => ParseBody(ctx, buf)
    case Done => Parsed(Complete, ctx, buf)
  }

  // ---- Chunk independence ----

  lemma TakeLineAppend(a: bytes, b: bytes)
    ensures TakeLine(a).Line? ==> TakeLine(a + b) == TakeLine(a).(rest := TakeLine(a).rest + b)
  {
    var i := CrlfAt(a);
    if i < |a| {
      FirstCrlf(a + b, i);
      assert (a + b)[..i] == a[..i] && (a + b)[i + 2..] == a[i + 2..] + b;
    }
  }

  lemma FirstCrlf(s: bytes, i: nat)
    requires i + 1 < |s| && s[i] == CR && s[i + 1] == LF
    requires forall j :: 0 <= j < i ==> !(s[j] == CR && s[j + 1] == LF)
    ensures CrlfAt(s) == i
  {
  }

  /** What it means for an answer on a to be the right start of an answer on a + b. */
  ghost predicate Resumes(p: Parsed, whole: Parsed, b: bytes) {
    whole == if p.outcome.NeedsMore? then ParseRequest(p.ctx, p.rest + b) else p.(rest := p.rest + b)
  }

  lemma BodyResumes(ctx: Context, a: bytes, b: bytes)
    requires ctx.state.ExpectBody?
    ensures Resumes(ParseBody(ctx, a), ParseBody(ctx, a + b), b)
  {
    hide Stoi, ContentLength;
    var length := Stoi(if ContentLength() in ctx.headers then ctx.headers[ContentLength()] else []);
    if length.Some? && 0 <= length.value <= |a| {
      assert (a + b)[..length.value] == a[..length.value];
      assert (a + b)[length.value..] == a[length.value..] + b;
    }
  }

  lemma {:induction false} HeadersResume(ctx: Context, a: bytes, b: bytes)
    requires ctx.state.ExpectHeaders?
    ensures Resumes(ParseHeaders(ctx, a), ParseHeaders(ctx, a + b), b)
    decreases |a|
  {
    hide ParseBody, TakeLine, ReadField, ContentLength;
    TakeLineAppend(a, b);
    if TakeLine(a).Line? {
      var text, rest := TakeLine(a).text, TakeLine(a).rest;
      if text == [] {
        BodyResumes(ctx.(state := ExpectBody), rest, b);
      } else {
        match ReadField(text)
        case Skipped => HeadersResume(ctx, rest, b);
        case Field(key, value) => HeadersResume(ctx.(headers := ctx.headers[key := value]), rest, b);
        case BadSubstr =>
      }
    }
  }

  /** From any context, for any bytes cut anywhere: a call that finished or threw
      would have done the same with more bytes behind, and a call that asked for
      more is continued by the next call as if everything had come at once. */
  lemma RequestResumes(ctx: Context, a: bytes, b: bytes)
    ensures Resumes(ParseRequest(ctx, a), ParseRequest(ctx, a + b), b)
  {
    hide ParseBody, ParseHeaders, TakeLine, ReadRequestLine;
    match ctx.state
    case ExpectRequestLine =>
      TakeLineAppend(a, b);
      if TakeLine(a).Line? {
        RequestLineMovesOn(ctx, TakeLine(a).text);
        HeadersResume(ReadRequestLine(ctx, TakeLine(a).text), TakeLine(a).rest, b);
      }
    case ExpectHeaders => HeadersResume(ctx, a, b);
    case ExpectBody => BodyResumes(ctx, a, b);
    case Done =>
  }

  lemma RequestLineMovesOn(ctx: Context, line: bytes)
    ensures ReadRequestLine(ctx, line).state == ExpectHeaders
  {
  }

  /** A connection's conversation: still reading, past its request (later bytes only
      pile up in the buffer), or ended by an exception. */
  datatype Conversation = Reading(ctx: Context, buf: bytes) | Finished(ctx: Context, buf: bytes) | Crashed

  function OnData(c: Conversation, chunk: bytes): Conversation {
    match c
    case Reading(ctx, buf) =>
      var p := ParseRequest(ctx, buf + chunk);
      (match p.outcome
       case Complete => Finished(p.ctx, p.rest)
       case NeedsMore => Reading(p.ctx, p.rest)
       case Throws => Crashed)
    case Finished(ctx, buf) => Finished(ctx, buf + chunk)
    case Crashed => Crashed
  }

  /** What is read does not depend on the cuts; how often it is handled, below, does. */
  lemma ConversationIsChunkBlind()
    ensures ChunkBlind(OnData)
  {
    forall c: Conversation, a: bytes, b: bytes
      ensures OnData(OnData(c, a), b) == OnData(c, a + b)
    {
      if !c.Crashed? {
        assert c.buf + (a + b) == (c.buf + a) + b;
        if c.Reading? {
          hide ParseRequest;
          RequestResumes(c.ctx, c.buf + a, b);
        }
      }
    }
  }

  // ---- The printer ----

  type Fields = seq<(bytes, bytes)>

  function HeaderLine(key: bytes, value: bytes): bytes { key + [COLON, SPACE] + value }

  function PrintFields(fields: Fields): bytes {
    if fields == [] then [] else HeaderLine(fields[0].0, fields[0].1) + CRLF + PrintFields(fields[1..])
  }

  /** The header lines of a request, in the order they are printed; the metadata in
      whatever order the message's map iterates. */
  function AllFields(metadata: Fields, bodySize: nat): Fields {
    [(Ascii("Host"), Ascii("localhost"))] + metadata
    + [(ContentLength(), Decimal(bodySize)), (Ascii("Connection"), Ascii("keep-alive"))]
  }

  function RequestLine(path: bytes): bytes { Ascii("POST") + [SPACE] + path + [SPACE] + Ascii("HTTP/1.1") }

  /** HttpClientProtocol::Send. */
  function Printed(path: bytes, metadata: Fields, body: bytes): bytes {
    RequestLine(path) + CRLF + PrintFields(AllFields(metadata, |body|)) + CRLF + body
  }

  // ---- Reading back ----

  ghost predicate NoCrlf(s: bytes) {
    forall i :: 0 <= i && i + 1 < |s| ==> !(s[i] == CR && s[i + 1] == LF)
  }

  lemma LineReadsBack(text: bytes, rest: bytes)
    requires NoCrlf(text)
    ensures TakeLine(text + CRLF + rest) == Line(text, rest)
  {
    var s := text + CRLF + rest;
    assert s[|text|] == CR && s[|text| + 1] == LF;
    forall j | 0 <= j < |text|
      ensures !(s[j] == CR && s[j + 1] == LF)
    {
      assert s[j] == text[j];
      if j + 1 < |text| { assert s[j + 1] == text[j + 1]; }
    }
    FirstCrlf(s, |text|);
    assert s[..|text|] == text && s[|text| + 2..] == rest;
  }

  /** What a header field must be like to survive: no colon in its key, no line end
      in either part, and no carriage return at the end of its value. */
  ghost predicate Printable(key: bytes, value: bytes) {
    && COLON !in key && NoCrlf(key) && NoCrlf(value)
    && (value != [] ==> value[|value| - 1] != CR)
  }

  lemma FieldReadsBack(key: bytes, value: bytes)
    requires Printable(key, value)
    ensures NoCrlf(HeaderLine(key, value)) && HeaderLine(key, value) != []
    ensures ReadField(HeaderLine(key, value)) == Field(key, value)
  {
    var line := HeaderLine(key, value);
    forall i | 0 <= i && i + 1 < |line|
      ensures !(line[i] == CR && line[i + 1] == LF)
    {
      if i + 1 < |key| {
        assert line[i] == key[i] && line[i + 1] == key[i + 1];
      } else if i >= |key| + 2 {
        assert line[i] == value[i - |key| - 2] && line[i + 1] == value[i - |key| - 1];
      }
    }
    ColonAfterKey(key, [SPACE] + value);
    assert line == key + [COLON] + ([SPACE] + value);
    assert line[..|key|] == key && line[|key| + 2..] == value;
  }

  lemma {:induction false} ColonAfterKey(key: bytes, rest: bytes)
    requires COLON !in key
    ensures ColonAt(key + [COLON] + rest) == |key|
  {
    if key == [] {
    } else {
      ColonAfterKey(key[1..], rest);
      assert (key + [COLON] + rest)[1..] == key[1..] + [COLON] + rest;
    }
  }

  /** And those are exactly the fields that survive. */
  lemma FieldReadsBackIff(key: bytes, value: bytes, rest: bytes)
    ensures
      var l := TakeLine(HeaderLine(key, value) + CRLF + rest);
      (l.Line? && l.rest == rest && ReadField(l.text) == Field(key, value)) <==> Printable(key, value)
  {
    if Printable(key, value) {
      FieldReadsBack(key, value);
      LineReadsBack(HeaderLine(key, value), rest);
    }
    var l := TakeLine(HeaderLine(key, value) + CRLF + rest);
    if l.Line? && l.rest == rest && ReadField(l.text) == Field(key, value) {
      SurvivorsArePrintable(key, value, rest);
    }
  }

  lemma SurvivorsArePrintable(key: bytes, value: bytes, rest: bytes)
    requires
      var l := TakeLine(HeaderLine(key, value) + CRLF + rest);
      l.Line? && l.rest == rest && ReadField(l.text) == Field(key, value)
    ensures Printable(key, value)
  {
    var line := HeaderLine(key, value);
    var s := line + CRLF + rest;
    var text := TakeLine(s).text;
    assert |text| + 2 + |rest| == |s|;
    assert text == s[..|line|] == line;
    forall i | 0 <= i && i + 1 < |line|
      ensures !(line[i] == CR && line[i + 1] == LF)
    {
      assert s[i] == line[i] && s[i + 1] == line[i + 1];
    }
    SplitLine(key, value);
    assert line[|key| + 2..] == value;
  }

  lemma SplitLine(key: bytes, value: bytes)
    requires NoCrlf(HeaderLine(key, value))
    ensures NoCrlf(key) && NoCrlf(value)
    ensures ColonAt(HeaderLine(key, value)) == |key| ==> COLON !in key
  {
    var line := HeaderLine(key, value);
    assert forall i :: 0 <= i < |key| ==> line[i] == key[i];
    assert forall i :: 0 <= i < |value| ==> line[|key| + 2 + i] == value[i];
  }

  function Insert(headers: map<bytes, bytes>, fields: Fields): map<bytes, bytes>
    decreases |fields|
  {
    if fields == [] then headers else Insert(headers[fields[0].0 := fields[0].1], fields[1..])
  }

  ghost predicate AllPrintable(fields: Fields) {
    forall i :: 0 <= i < |fields| ==> Printable(fields[i].0, fields[i].1)
  }

  lemma {:induction false} FieldsReadBack(ctx: Context, fields: Fields, rest: bytes)
    requires ctx.state.ExpectHeaders? && AllPrintable(fields)
    ensures ParseHeaders(ctx, PrintFields(fields) + rest)
         == ParseHeaders(ctx.(headers := Insert(ctx.headers, fields)), rest)
    decreases |fields|
  {
    hide TakeLine, ReadField, HeaderLine, ParseBody;
    if fields == [] {
      assert PrintFields(fields) + rest == rest;
    } else {
      var (key, value) := fields[0];
      var more := PrintFields(fields[1..]) + rest;
      FieldReadsBack(key, value);
      assert PrintFields(fields) + rest == HeaderLine(key, value) + CRLF + more;
      LineReadsBack(HeaderLine(key, value), more);
      FieldsReadBack(ctx.(headers := ctx.headers[key := value]), fields[1..], rest);
    }
  }

  lemma RequestLineReadsBack(path: bytes)
    requires IsWord(path)
    ensures NoCrlf(RequestLine(path))
    ensures ReadRequestLine(FRESH, RequestLine(path))
         == FRESH.(verb := Ascii("POST"), path := path, version := Ascii("HTTP/1.1"), state := ExpectHeaders)
  {
    var line := RequestLine(path);
    FixedWords();
    forall i | 0 <= i < |line|
      ensures line[i] != LF
    {
      if 5 <= i < 5 + |path| {
        assert line[i] == path[i - 5];
      } else if i >= 6 + |path| {
        assert line[i] == Ascii("HTTP/1.1")[i - 6 - |path|];
      } else if i < 4 {
        assert line[i] == Ascii("POST")[i];
      }
    }
    var r2 := [SPACE] + (Ascii("HTTP/1.1") + []);
    var r1 := [SPACE] + (path + r2);
    assert line == Ascii("POST") + r1;
    ReadsWord(Ascii("POST"), r1, []);
    ReadsWord(path, r2, []);
    ReadsWord(Ascii("HTTP/1.1"), [], []);
  }

  lemma FixedWords()
    ensures IsWord(Ascii("POST")) && |Ascii("POST")| == 4 && IsWord(Ascii("HTTP/1.1"))
  {
  }

  /** No colon and no control character. */
  ghost predicate Plain(s: string) {
    forall i :: 0 <= i < |s| ==> ' ' < s[i] < '{' && s[i] != ':'
  }

  lemma PlainBytes(s: string)
    requires Plain(s)
    ensures forall i :: 0 <= i < |s| ==> Ascii(s)[i] != COLON && Ascii(s)[i] != CR
  {
  }

  lemma PlainIsPrintable(key: string, value: string)
    requires Plain(key) && Plain(value)
    ensures Printable(Ascii(key), Ascii(value))
  {
    PlainBytes(key);
    PlainBytes(value);
    hide Plain;
  }

  lemma LengthIsPrintable(key: string, n: nat)
    requires Plain(key)
    ensures Printable(Ascii(key), Decimal(n))
  {
    PlainBytes(key);
    hide Plain, Decimal;
    forall i | 0 <= i < |Decimal(n)|
      ensures Decimal(n)[i] != CR
    {
      assert IsDigit(Decimal(n)[i]);
    }
  }

  lemma FixedFieldsArePrintable(n: nat)
    ensures Printable(Ascii("Host"), Ascii("localhost"))
    ensures Printable(ContentLength(), Decimal(n))
    ensures Printable(Ascii("Connection"), Ascii("keep-alive"))
  {
    hide Printable, Ascii, Decimal;
    PlainIsPrintable("Host", "localhost");
    LengthIsPrintable("Content-Length", n);
    PlainIsPrintable("Connection", "keep-alive");
  }

  lemma FixedNamesDiffer()
    ensures Ascii("Connection") != ContentLength() && Ascii("Host") != ContentLength()
  {
    assert |Ascii("Connection")| == 10 && |ContentLength()| == 14 && |Ascii("Host")| == 4;
  }

  /** The context of a request that was read completely. */
  function ReadContext(path: bytes, metadata: Fields, body: bytes): Context {
    Context(Done, Ascii("POST"), path, Ascii("HTTP/1.1"), Insert(map[], AllFields(metadata, |body|)), body)
  }

  lemma {:induction false} InsertAppend(headers: map<bytes, bytes>, a: Fields, b: Fields)
    ensures Insert(headers, a + b) == Insert(Insert(headers, a), b)
    decreases |a|
  {
    if a == [] {
      assert a + b == b;
    } else {
      assert (a + b)[1..] == a[1..] + b;
      InsertAppend(headers[a[0].0 := a[0].1], a[1..], b);
    }
  }

  lemma LengthHeader(metadata: Fields, n: nat)
    ensures
      var headers := Insert(map[], AllFields(metadata, n));
      ContentLength() in headers && headers[ContentLength()] == Decimal(n)
  {
    FixedNamesDiffer();
    hide Ascii, ContentLength, Decimal;
    var first: Fields := [(Ascii("Host"), Ascii("localhost"))] + metadata;
    var last: Fields := [(ContentLength(), Decimal(n)), (Ascii("Connection"), Ascii("keep-alive"))];
    assert AllFields(metadata, n) == first + last;
    InsertAppend(map[], first, last);
    InsertKeeps(Insert(map[], first)[ContentLength() := Decimal(n)], last[1..], ContentLength());
  }

  lemma BodyReadsBack(ctx: Context, body: bytes, rest: bytes)
    requires ContentLength() in ctx.headers && ctx.headers[ContentLength()] == Decimal(|body|)
    ensures ParseBody(ctx, body + rest)
         == if |body| <= INT_MAX then Parsed(Complete, ctx.(body := body, state := Done), rest)
            else Parsed(Throws, ctx, body + rest)
  {
    hide Stoi, ContentLength;
    StoiOfDecimal(|body|);
    assert (body + rest)[..|body|] == body && (body + rest)[|body|..] == rest;
  }

  lemma WholeRequest(path: bytes, metadata: Fields, body: bytes, following: bytes)
    requires IsWord(path) && AllPrintable(metadata)
    ensures
      var c := OnData(Reading(FRESH, []), Printed(path, metadata, body) + following);
      c == if |body| <= INT_MAX then Finished(ReadContext(path, metadata, body), following) else Crashed
  {
    hide TakeLine, ReadField, ParseBody, Ascii, RequestLine, ReadRequestLine, Decimal, Insert, PrintFields;
    var fields := AllFields(metadata, |body|);
    var tail := CRLF + (body + following);
    var all := Printed(path, metadata, body) + following;
    assert all == RequestLine(path) + CRLF + (PrintFields(fields) + tail);
    assert [] + all == all;
    RequestLineReadsBack(path);
    LineReadsBack(RequestLine(path), PrintFields(fields) + tail);
    FixedFieldsArePrintable(|body|);
    assert AllPrintable(fields);
    var ctx := FRESH.(verb := Ascii("POST"), path := path, version := Ascii("HTTP/1.1"), state := ExpectHeaders);
    FieldsReadBack(ctx, fields, tail);
    LengthHeader(metadata, |body|);
    assert [] + CRLF + (body + following) == tail;
    LineReadsBack([], body + following);
    var done := ctx.(headers := Insert(map[], fields), state := ExpectBody);
    BodyReadsBack(done, body, following);
  }

  /** Printer and parser are inverse: for a whitespace-free path, printable metadata
      and a body up to 2^31 - 1 bytes, the printed request, cut anywhere, is read as
      the same method, path, version, header lines (a later line overriding an
      earlier one of the same name) and body, leaving exactly the bytes after it. For
      a larger body the parser always ends in an exception instead. */
  lemma RequestRoundTrip(path: bytes, metadata: Fields, body: bytes, following: bytes, chunks: seq<bytes>)
    requires IsWord(path) && AllPrintable(metadata)
    requires Flatten(chunks) == Printed(path, metadata, body) + following
    ensures
      Feed(OnData, Reading(FRESH, []), chunks)
      == if |body| <= INT_MAX then Finished(ReadContext(path, metadata, body), following) else Crashed
  {
    ConversationIsChunkBlind();
    assert |Flatten(chunks)| > 0;
    FeedIsOneDelivery(OnData, Reading(FRESH, []), chunks);
    WholeRequest(path, metadata, body, following);
  }

  // ---- How often the request is handled ----

  /** OnMessage runs the handler after every read that leaves the request complete: the
      one that completes it and, as long as the handler leaves the connection connected,
      each one after it, because the context stays Done. */
  function Dispatches(c: Conversation, chunks: seq<bytes>): nat
    decreases |chunks|
  {
    if chunks == [] then 0
    else
      var next := OnData(c, chunks[0]);
      (if next.Finished? then 1 else 0) + Dispatches(next, chunks[1..])
  }

  /** The reads that end n bytes in or later. */
  function ReadsPast(chunks: seq<bytes>, n: int): nat {
    if chunks == [] then 0 else (if |chunks[0]| >= n then 1 else 0) + ReadsPast(chunks[1..], n - |chunks[0]|)
  }

  /** Of a printed request the parser needs every byte. */
  lemma FinishedIff(path: bytes, metadata: Fields, body: bytes, following: bytes, seen: bytes)
    requires IsWord(path) && AllPrintable(metadata) && |body| <= INT_MAX
    requires seen <= Printed(path, metadata, body) + following
    ensures OnData(Reading(FRESH, []), seen).Finished? <==> |seen| >= |Printed(path, metadata, body)|
  {
    hide ParseRequest, Printed, ReadContext, AllPrintable;
    var printed := Printed(path, metadata, body);
    var all, rest := printed + following, (printed + following)[|seen|..];
    assert seen + rest == all;
    if |seen| >= |printed| {
      var more := seen[|printed|..];
      assert seen == printed + more;
      WholeRequest(path, metadata, body, more);
    } else {
      WholeRequest(path, metadata, body, following);
      ConversationIsChunkBlind();
      assert OnData(OnData(Reading(FRESH, []), seen), rest) == OnData(Reading(FRESH, []), seen + rest);
      assert |rest| > |following|;
    }
  }

  lemma {:induction false} DispatchesFrom(path: bytes, metadata: Fields, body: bytes, following: bytes, seen: bytes,
                                          chunks: seq<bytes>)
    requires IsWord(path) && AllPrintable(metadata) && |body| <= INT_MAX
    requires seen + Flatten(chunks) == Printed(path, metadata, body) + following
    ensures
      Dispatches(OnData(Reading(FRESH, []), seen), chunks) == ReadsPast(chunks, |Printed(path, metadata, body)| - |seen|)
    decreases |chunks|
  {
    hide OnData, Printed, AllPrintable;
    if chunks == [] {
    } else {
      var start, more := Reading(FRESH, []), seen + chunks[0];
      Assoc(seen, chunks[0], Flatten(chunks[1..]));
      ConversationIsChunkBlind();
      assert OnData(OnData(start, seen), chunks[0]) == OnData(start, more);
      FinishedIff(path, metadata, body, following, more);
      DispatchesFrom(path, metadata, body, following, more, chunks[1..]);
    }
  }

  lemma {:induction false} PastOnceIff(chunks: seq<bytes>, n: int)
    requires 0 < n <= |Flatten(chunks)|
    ensures ReadsPast(chunks, n) == 1 <==> |Flatten(chunks[..|chunks| - 1])| < n
    decreases |chunks|
  {
    var init, rest := chunks[..|chunks| - 1], chunks[1..];
    if |chunks[0]| >= n {
      AllPast(rest, n - |chunks[0]|);
      if rest == [] {
        assert init == [];
      } else {
        assert init[0] == chunks[0];
      }
    } else {
      PastOnceIff(rest, n - |chunks[0]|);
      assert init[0] == chunks[0] && init[1..] == rest[..|rest| - 1];
    }
  }

  lemma {:induction false} AllPast(chunks: seq<bytes>, n: int)
    requires n <= 0
    ensures ReadsPast(chunks, n) == |chunks|
    decreases |chunks|
  {
    if chunks == [] {
    } else {
      AllPast(chunks[1..], n - |chunks[0]|);
    }
  }

  /** So how often a printed request is handled does depend on the cuts: once for each
      read that ends with or after the request, and exactly once if and only if no read
      comes after the one that completes it. */
  lemma HandledOnceIff(path: bytes, metadata: Fields, body: bytes, following: bytes, chunks: seq<bytes>)
    requires IsWord(path) && AllPrintable(metadata) && |body| <= INT_MAX
    requires Flatten(chunks) == Printed(path, metadata, body) + following
    ensures
      var n, handled := |Printed(path, metadata, body)|, Dispatches(Reading(FRESH, []), chunks);
      && handled == ReadsPast(chunks, n)
      && chunks != [] && (handled == 1 <==> |Flatten(chunks[..|chunks| - 1])| < n)
  {
    hide Printed, AllPrintable, Dispatches, ReadsPast, OnData;
    PrintedNonempty(path, metadata, body);
    assert [] + Flatten(chunks) == Flatten(chunks);
    NothingReadYet();
    DispatchesFrom(path, metadata, body, following, [], chunks);
    PastOnceIff(chunks, |Printed(path, metadata, body)|);
  }

  lemma PrintedNonempty(path: bytes, metadata: Fields, body: bytes)
    ensures |Printed(path, metadata, body)| > 0
  {
    hide PrintFields, RequestLine;
  }

  lemma NothingReadYet()
    ensures OnData(Reading(FRESH, []), []) == Reading(FRESH, [])
  {
    var nothing: bytes := [];
    assert nothing + nothing == nothing;
  }

  lemma {:induction false} InsertKeeps(headers: map<bytes, bytes>, fields: Fields, key: bytes)
    requires forall f <- fields :: f.0 != key
    ensures key in Insert(headers, fields) <==> key in headers
    ensures key in headers ==> Insert(headers, fields)[key] == headers[key]
    decreases |fields|
  {
    if fields == [] {
    } else {
      InsertKeeps(headers[fields[0].0 := fields[0].1], fields[1..], key);
    }
  }

  /** In particular every metadata entry whose key is printed only once arrives. */
  lemma MetadataArrives(path: bytes, metadata: Fields, body: bytes, i: nat)
    requires i < |metadata|
    requires forall j :: i < j < |metadata| ==> metadata[j].0 != metadata[i].0
    requires metadata[i].0 != ContentLength() && metadata[i].0 != Ascii("Connection")
    ensures
      var headers := ReadContext(path, metadata, body).headers;
      metadata[i].0 in headers && headers[metadata[i].0] == metadata[i].1
  {
    var last: Fields := [(ContentLength(), Decimal(|body|)), (Ascii("Connection"), Ascii("keep-alive"))];
    var before: Fields := [(Ascii("Host"), Ascii("localhost"))] + metadata[..i];
    var after: Fields := metadata[i + 1..] + last;
    assert metadata == metadata[..i] + [metadata[i]] + metadata[i + 1..];
    assert AllFields(metadata, |body|) == before + ([metadata[i]] + after);
    InsertAppend(map[], before, [metadata[i]] + after);
    assert ([metadata[i]] + after)[1..] == after;
    InsertKeeps(Insert(map[], before)[metadata[i].0 := metadata[i].1], after, metadata[i].0);
  }

  // ---- The objects ----

  method PrintRequest(path: bytes, metadata: Fields, body: bytes) returns (ss: bytes)
    ensures ss == Printed(path, metadata, body)
  {
    hide Ascii, HeaderLine, Decimal;
    ss := Ascii("POST") + [SPACE] + path + [SPACE] + Ascii("HTTP/1.1") + CRLF;
    ghost var all := AllFields(metadata, |body|);
    ghost var target := ss + PrintFields(all);
    assert all[0] == (Ascii("Host"), Ascii("localhost"));
    ss := ss + HeaderLine(Ascii("Host"), Ascii("localhost")) + CRLF;
    for i := 0 to |metadata|
      invariant ss + PrintFields(all[1 + i..]) == target
    {
      assert all[1 + i] == metadata[i] && all[1 + i..][1..] == all[2 + i..];
      ss := ss + HeaderLine(metadata[i].0, metadata[i].1) + CRLF;
    }
    ghost var last: Fields := all[1 + |metadata|..];
    assert last == [(ContentLength(), Decimal(|body|)), (Ascii("Connection"), Ascii("keep-alive"))];
    assert last[1..] == [(Ascii("Connection"), Ascii("keep-alive"))];
    ss := ss + HeaderLine(ContentLength(), Decimal(|body|)) + CRLF;
    assert ss + PrintFields(last[1..]) == target;
    ss := ss + HeaderLine(Ascii("Connection"), Ascii("keep-alive")) + CRLF;
    assert PrintFields(last[1..][1..]) == [] && ss + [] == ss == target;
    ss := ss + CRLF + body;
  }

  class HttpContext {
    var state: State
    var verb: bytes
    var path: bytes
    var version: bytes
    var headers: map<bytes, bytes>
    var body: bytes

    ghost function View(): Context
      reads this
    {
      Context(state, verb, path, version, headers, body)
    }

    constructor ()
      ensures View() == FRESH
    {
      state, verb, path, version, headers, body := ExpectRequestLine, [], [], [], map[], [];
    }

    method ParseRequestFrom(buf: Buffer) returns (outcome: Outcome)
      requires buf.Valid()
      modifies this, buf`reader, buf`writer
      ensures buf.Valid()
      ensures Parsed(outcome, View(), buf.Contents()) == ParseRequest(old(View()), old(buf.Contents()))
    {
      hide TakeLine, ParseBody, ParseHeaders;
      if state.ExpectRequestLine? {
        var line := TakeLineFrom(buf);
        if line.None? {
          return NeedsMore;
        }
        var (w1, r1) := ReadWord(line.value, verb);
        var (w2, r2) := ReadWord(r1, path);
        var (w3, _) := ReadWord(r2, version);
        verb, path, version, state := w1, w2, w3, ExpectHeaders;
      }
      if state.ExpectHeaders? {
        outcome := ParseHeaderLines(buf);
        if !state.ExpectBody? {
          return;
        }
      }
      if state.ExpectBody? {
        outcome := TakeBody(buf);
        return;
      }
      return Complete;
    }

    method TakeLineFrom(buf: Buffer) returns (line: Option<bytes>)
      requires buf.Valid()
      modifies buf`reader, buf`writer
      ensures buf.Valid()
      ensures TakeLine(old(buf.Contents())) == if line.Some? then Line(line.value, buf.Contents()) else NoLine
      ensures line.None? ==> buf.Contents() == old(buf.Contents())
    {
      var crlf := buf.FindCRLF();
      if crlf == buf.ReadableBytes() {
        return None;
      }
      line := Some(buf.Peek()[..crlf]);
      buf.Retrieve(crlf + 2);
    }

    /** The header loop; on a blank line before a body it leaves in state ExpectBody. */
    method ParseHeaderLines(buf: Buffer) returns (outcome: Outcome)
      requires buf.Valid() && state.ExpectHeaders?
      modifies `state, `headers, buf`reader, buf`writer
      ensures buf.Valid()
      ensures
        ParseHeaders(old(View()), old(buf.Contents())) ==
        if state.ExpectBody? then ParseBody(View(), buf.Contents()) else Parsed(outcome, View(), buf.Contents())
    {
      hide TakeLine, ReadField, ParseBody, ContentLength;
      ghost var target := ParseHeaders(View(), buf.Contents());
      while true
        invariant buf.Valid() && state.ExpectHeaders?
        invariant ParseHeaders(View(), buf.Contents()) == target
        decreases buf.ReadableBytes()
      {
        var line := TakeLineFrom(buf);
        if line.None? {
          return NeedsMore;
        }
        if line.value == [] {
          if ContentLength() in headers {
            state := ExpectBody;
            return NeedsMore;
          }
          state := Done;
          return Complete;
        }
        match ReadField(line.value) {
          case Skipped =>
          case Field(key, value) => headers := headers[key := value];
          case BadSubstr => return Throws;
        }
      }
    }

    method TakeBody(buf: Buffer) returns (outcome: Outcome)
      requires buf.Valid() && state.ExpectBody?
      modifies `state, `body, buf`reader, buf`writer
      ensures buf.Valid()
      ensures Parsed(outcome, View(), buf.Contents()) == ParseBody(old(View()), old(buf.Contents()))
    {
      var length := Stoi(if ContentLength() in headers then headers[ContentLength()] else []);
      if length.None? {
        return Throws;
      }
      if 0 <= length.value <= buf.ReadableBytes() {
        body := buf.Peek()[..length.value];
        buf.Retrieve(length.value);
        state := Done;
        return Complete;
      }
      return NeedsMore;
    }
  }
}
