/** lib_network/src/protocols/http/http_handler.cc:118-172 on requests of any make, not
    only the ones its own client prints: any words on the first line, header lines with
    and without a colon or a value, with and without a Content-Length. */
module HttpRequests {
  import opened Bytes
  import opened HttpText
  import opened Http

  // ---- Numbers as they may be written ----

  lemma {:induction false} SpacesSkipped(spaces: bytes, rest: bytes)
    requires (forall b <- spaces :: IsSpace(b)) && (rest != [] ==> !IsSpace(rest[0]))
    ensures SkipSpaces(spaces + rest) == rest
  {
    if spaces == [] {
      assert spaces + rest == rest;
    } else {
      assert (spaces + rest)[1..] == spaces[1..] + rest;
      SpacesSkipped(spaces[1..], rest);
    }
  }

  lemma {:induction false} DigitsCounted(digits: bytes, junk: bytes)
    requires (forall d <- digits :: IsDigit(d)) && (junk != [] ==> !IsDigit(junk[0]))
    ensures DigitCount(digits + junk) == |digits|
  {
    if digits == [] {
      assert digits + junk == junk;
    } else {
      assert (digits + junk)[1..] == digits[1..] + junk;
      DigitsCounted(digits[1..], junk);
    }
  }

  datatype Sign = Unsigned | Plus | Minus

  function SignText(sign: Sign): bytes {
    match sign
    case Unsigned => []
    case Plus => [43]
    case Minus => [45]
  }

  /** stoi takes leading space, a sign and digits, and ignores what follows; it fails on a
      number that does not fit an int. */
  lemma StoiOfSigned(spaces: bytes, sign: Sign, n: nat, junk: bytes)
    requires (forall b <- spaces :: IsSpace(b)) && (junk != [] ==> !IsDigit(junk[0]))
    ensures
      var v: int := n;
      Stoi(spaces + (SignText(sign) + (Decimal(n) + junk))) ==
      if sign.Minus? then (if v > INT_MAX + 1 then None else Some(-v))
      else if v > INT_MAX then None else Some(v)
  {
    hide SkipSpaces, DigitCount, Value, Decimal, Stoi;
    var digits := Decimal(n);
    assert IsDigit(digits[0]);
    SpacesSkipped(spaces, SignText(sign) + (digits + junk));
    DigitsCounted(digits, junk);
    DecimalValue(n);
    assert (digits + junk)[..|digits|] == digits;
    StoiAfterSign(spaces + (SignText(sign) + (digits + junk)), sign, digits + junk);
  }

  /** What is read behind the sign. */
  lemma StoiAfterSign(s: bytes, sign: Sign, u: bytes)
    requires SkipSpaces(s) == SignText(sign) + u
    requires u != [] ==> u[0] != 43 && u[0] != 45
    ensures
      var n := DigitCount(u);
      if n == 0 then Stoi(s) == None
      else
        var v: int := Value(u[..n]);
        Stoi(s) == if sign.Minus? then (if v > INT_MAX + 1 then None else Some(-v))
                   else if v > INT_MAX then None else Some(v)
  {
    hide SkipSpaces, DigitCount, Value;
    var t := SignText(sign) + u;
    assert sign.Unsigned? ==> t == u;
    assert !sign.Unsigned? ==> t[1..] == u;
  }

  /** And on one that is missing. */
  lemma StoiOfNothing(spaces: bytes, sign: Sign, junk: bytes)
    requires forall b <- spaces :: IsSpace(b)
    requires junk != [] ==> !IsDigit(junk[0]) && !IsSpace(junk[0]) && junk[0] != 43 && junk[0] != 45
    ensures Stoi(spaces + (SignText(sign) + junk)) == None
  {
    SpacesSkipped(spaces, SignText(sign) + junk);
    hide SkipSpaces, Value, Stoi;
    StoiAfterSign(spaces + (SignText(sign) + junk), sign, junk);
  }

  // ---- The first line ----

  ghost predicate AllWords(words: seq<bytes>) { forall w <- words :: IsWord(w) }

  function Join(words: seq<bytes>): bytes {
    if words == [] then [] else if |words| == 1 then words[0] else words[0] + ([SPACE] + Join(words[1..]))
  }

  /** The k-th word, or nothing. */
  function Nth(words: seq<bytes>, k: nat): bytes { if k < |words| then words[k] else [] }

  function Behind(words: seq<bytes>): bytes { if |words| <= 1 then [] else [SPACE] + Join(words[1..]) }

  lemma FirstWord(words: seq<bytes>)
    requires AllWords(words)
    ensures ReadWord(Join(words), []) == (Nth(words, 0), Behind(words))
    ensures words != [] ==> ReadWord([SPACE] + Join(words), []) == (Nth(words, 0), Behind(words))
  {
    if words == [] {
    } else {
      assert words[0] in words && words[0] + [] == words[0];
      ReadsWord(words[0], Behind(words), []);
    }
  }

  lemma NothingToRead()
    ensures ReadWord([], []) == ([], [])
  {
  }

  /** Three words make the method, the path and the version; missing ones stay empty, and
      further ones are ignored. */
  lemma FirstLineReads(words: seq<bytes>)
    requires AllWords(words)
    ensures
      ReadRequestLine(FRESH, Join(words)) ==
      FRESH.(verb := Nth(words, 0), path := Nth(words, 1), version := Nth(words, 2), state := ExpectHeaders)
  {
    hide ReadWord, Join;
    FirstWord(words);
    NothingToRead();
    if |words| > 1 {
      var second := words[1..];
      assert forall w <- second :: w in words;
      FirstWord(second);
      if |words| > 2 {
        assert second[1..] == words[2..] && forall w <- words[2..] :: w in words;
        FirstWord(words[2..]);
      }
    }
  }

  lemma {:induction false} JoinHasNoLineEnd(words: seq<bytes>)
    requires AllWords(words)
    ensures CR !in Join(words) && LF !in Join(words)
  {
    if words == [] {
    } else {
      var w := words[0];
      assert w in words && forall v <- words[1..] :: v in words;
      assert forall i :: 0 <= i < |w| ==> !IsSpace(w[i]);
      JoinHasNoLineEnd(words[1..]);
    }
  }

  // ---- Header lines ----

  /** A header line with a value, which may be followed by a carriage return; one without
      a colon; and one that ends at its colon. */
  datatype HeaderText =
    | Named(key: bytes, separator: byte, value: bytes, cr: bool)
    | Junk(text: bytes)
    | Bare(key: bytes)

  function Text(h: HeaderText): bytes {
    match h
    case Named(key, separator, value, cr) => key + [COLON] + ([separator] + (value + if cr then [CR] else []))
    case Junk(text) => text
    case Bare(key) => key + [COLON] + []
  }

  ghost predicate Proper(h: HeaderText) {
    && NoCrlf(Text(h)) && Text(h) != []
    && match h
       case Named(key, _, value, _) => COLON !in key && (value != [] ==> value[|value| - 1] != CR)
       case Junk(text) => COLON !in text
       case Bare(key) => COLON !in key
  }

  lemma {:induction false} NoColonAt(s: bytes)
    requires COLON !in s
    ensures ColonAt(s) == |s|
  {
    if s == [] {
    } else {
      NoColonAt(s[1..]);
    }
  }

  /** The byte after the colon is dropped whatever it is, and so is a last carriage return. */
  lemma HeaderReads(h: HeaderText)
    requires Proper(h)
    ensures ReadField(Text(h)) == match h
                                  case Named(key, _, value, _) => Field(key, value)
                                  case Junk(_) => Skipped
                                  case Bare(_) => BadSubstr
  {
    hide NoCrlf, ColonAt;
    match h
    case Named(key, separator, value, cr) =>
      hide ReadField;
      NamedReads(key, separator, value, cr);
    case Junk(text) => NoColonAt(text);
    case Bare(key) => ColonAfterKey(key, []);
  }

  lemma NamedReads(key: bytes, separator: byte, value: bytes, cr: bool)
    requires COLON !in key && (value != [] ==> value[|value| - 1] != CR)
    ensures ReadField(key + [COLON] + ([separator] + (value + if cr then [CR] else []))) == Field(key, value)
  {
    hide ColonAt;
    var tail := value + if cr then [CR] else [];
    var line := key + [COLON] + ([separator] + tail);
    ColonAfterKey(key, [separator] + tail);
    assert line[..|key|] == key;
    assert line[|key| + 2..] == tail;
    if cr {
      assert tail[..|tail| - 1] == value;
    }
  }

  function Block(headers: seq<HeaderText>): bytes {
    if headers == [] then [] else Text(headers[0]) + CRLF + Block(headers[1..])
  }

  predicate SomeBare(headers: seq<HeaderText>) { exists i :: 0 <= i < |headers| && headers[i].Bare? }

  /** The named lines in order, a later one overriding an earlier. */
  function Collected(known: map<bytes, bytes>, headers: seq<HeaderText>): map<bytes, bytes>
    decreases |headers|
  {
    if headers == [] then known
    else Collected(if headers[0].Named? then known[headers[0].key := headers[0].value] else known, headers[1..])
  }

  ghost predicate AllProper(headers: seq<HeaderText>) { forall h <- headers :: Proper(h) }

  lemma {:induction false} BlockReads(ctx: Context, headers: seq<HeaderText>, rest: bytes)
    requires ctx.state.ExpectHeaders? && AllProper(headers)
    ensures SomeBare(headers) ==> ParseHeaders(ctx, Block(headers) + rest).outcome == Throws
    ensures !SomeBare(headers) ==>
              ParseHeaders(ctx, Block(headers) + rest) ==
              ParseHeaders(ctx.(headers := Collected(ctx.headers, headers)), rest)
    decreases |headers|
  {
    hide TakeLine, ReadField, Text, ParseBody, Proper;
    if headers == [] {
      assert Block(headers) + rest == rest;
    } else {
      var h, more := headers[0], Block(headers[1..]) + rest;
      assert h in headers && forall g <- headers[1..] :: g in headers;
      HeaderReads(h);
      ProperLine(h);
      LineReadsBack(Text(h), more);
      assert Block(headers) + rest == Text(h) + CRLF + more;
      BareSplit(headers);
      match h
      case Named(key, _, value, _) => BlockReads(ctx.(headers := ctx.headers[key := value]), headers[1..], rest);
      case Junk(_) => BlockReads(ctx, headers[1..], rest);
      case Bare(_) =>
    }
  }

  lemma ProperLine(h: HeaderText)
    requires Proper(h)
    ensures NoCrlf(Text(h)) && Text(h) != []
  {
  }

  lemma BareSplit(headers: seq<HeaderText>)
    requires headers != []
    ensures SomeBare(headers) <==> headers[0].Bare? || SomeBare(headers[1..])
  {
    if SomeBare(headers) {
      var i :| 0 <= i < |headers| && headers[i].Bare?;
      assert i > 0 ==> headers[1..][i - 1].Bare?;
    }
    if SomeBare(headers[1..]) {
      var i :| 0 <= i < |headers[1..]| && headers[1..][i].Bare?;
      assert headers[i + 1].Bare?;
    }
  }

  // ---- Whole requests ----

  function Request(words: seq<bytes>, headers: seq<HeaderText>, following: bytes): bytes {
    Join(words) + CRLF + (Block(headers) + (CRLF + following))
  }

  /** What is to be made of it: an exception for a line that ends at its colon, and for a
      length that is no number; with a length, that many bytes of body, waited for until
      they are there, and for ever if it is negative; without one, no body. */
  function Meaning(words: seq<bytes>, headers: seq<HeaderText>, following: bytes): Conversation {
    var fields := Collected(map[], headers);
    var ctx := Context(Done, Nth(words, 0), Nth(words, 1), Nth(words, 2), fields, []);
    if SomeBare(headers) then Crashed
    else if ContentLength() !in fields then Finished(ctx, following)
    else match Stoi(fields[ContentLength()])
      case None => Crashed
      case Some(n) =>
        if 0 <= n <= |following| then Finished(ctx.(body := following[..n]), following[n..])
        else Reading(ctx.(state := ExpectBody), following)
  }

  lemma RequestInOneRead(words: seq<bytes>, headers: seq<HeaderText>, following: bytes)
    requires AllWords(words) && AllProper(headers)
    ensures OnData(Reading(FRESH, []), Request(words, headers, following)) == Meaning(words, headers, following)
  {
    hide TakeLine, ReadField, ReadRequestLine, Join, Block, Stoi, ContentLength, AllWords, AllProper, SomeBare;
    var line, tail := Join(words), CRLF + following;
    var all := Request(words, headers, following);
    FirstLineReads(words);
    JoinHasNoLineEnd(words);
    LineReadsBack(line, Block(headers) + tail);
    assert [] + all == all;
    var ctx := FRESH.(verb := Nth(words, 0), path := Nth(words, 1), version := Nth(words, 2), state := ExpectHeaders);
    BlockReads(ctx, headers, tail);
    assert [] + CRLF + following == tail;
    LineReadsBack([], following);
    hide ParseHeaders;
    AtBlankLine(ctx.(headers := Collected(map[], headers)), tail, following);
  }

  lemma AtBlankLine(ctx: Context, tail: bytes, following: bytes)
    requires TakeLine(tail) == Line([], following)
    ensures
      ParseHeaders(ctx, tail) ==
      if ContentLength() in ctx.headers then ParseBody(ctx.(state := ExpectBody), following)
      else Parsed(Complete, ctx.(state := Done), following)
  {
    hide ParseBody, ContentLength;
  }

  /** And that is what is made of it, in any cuts. */
  lemma RequestReads(words: seq<bytes>, headers: seq<HeaderText>, following: bytes, chunks: seq<bytes>)
    requires AllWords(words) && AllProper(headers)
    requires Flatten(chunks) == Request(words, headers, following)
    ensures Feed(OnData, Reading(FRESH, []), chunks) == Meaning(words, headers, following)
  {
    assert |Request(words, headers, following)| > 0;
    hide OnData, Request, Meaning;
    ConversationIsChunkBlind();
    FeedIsOneDelivery(OnData, Reading(FRESH, []), chunks);
    RequestInOneRead(words, headers, following);
  }

  lemma {:induction false} CollectedFromNamed(known: map<bytes, bytes>, headers: seq<HeaderText>, key: bytes)
    requires forall h <- headers :: h.Named? ==> h.key != key
    ensures key in Collected(known, headers) <==> key in known
    decreases |headers|
  {
    if headers == [] {
    } else {
      assert headers[0] in headers;
      CollectedFromNamed(if headers[0].Named? then known[headers[0].key := headers[0].value] else known, headers[1..], key);
    }
  }

  /** In particular a request without a Content-Length is complete at its blank line: with
      the words of its first line, its header fields and no body, leaving what follows. */
  lemma RequestWithoutLength(words: seq<bytes>, headers: seq<HeaderText>, following: bytes, chunks: seq<bytes>)
    requires AllWords(words) && AllProper(headers) && Flatten(chunks) == Request(words, headers, following)
    requires forall h <- headers :: !h.Bare? && (h.Named? ==> h.key != ContentLength())
    ensures
      Feed(OnData, Reading(FRESH, []), chunks) ==
      Finished(Context(Done, Nth(words, 0), Nth(words, 1), Nth(words, 2), Collected(map[], headers), []), following)
  {
    RequestReads(words, headers, following, chunks);
    CollectedFromNamed(map[], headers, ContentLength());
    hide OnData, Request, Feed, Collected, ContentLength, Stoi;
  }
}
