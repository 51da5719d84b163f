/** lib_network/src/protocols/websocket: the resumable frame parser and the frame
    writer, against sections 5.2 and 5.3 of RFC 6455. */
module WebSocket {
  import opened Bytes
  import opened Bits

  const MAX_PAYLOAD := 1024 * 1024 * 1024
  const TEXT: byte := 0x1
  const CLOSE: byte := 0x8

  datatype Head = Head(fin: bool, opcode: byte, masked: bool)

  datatype Frame = Frame(head: Head, payload: bytes)

  /** The parser's state, with everything it remembers of the frame so far. */
  datatype State =
    | AtHeader
    | AtLength(head: Head, wide: bool)   // eight bytes if wide, else two
    | AtMaskKey(head: Head, length: nat)
    | AtPayload(head: Head, length: nat, key: bytes)

  // ---- Integers of any width ----

  /** be64toh_safe, for any number of bytes. */
  function FromBe(b: bytes): nat {
    if b == [] then 0 else FromBe(b[..|b| - 1]) * 256 + b[|b| - 1]
  }

  function Be(n: nat, k: nat): (b: bytes)
    ensures |b| == k
  {
    if k == 0 then [] else Be(n / 256, k - 1) + [n % 256]
  }

  function Le(n: nat, k: nat): (b: bytes)
    ensures |b| == k
  {
    if k == 0 then [] else [n % 256] + Le(n / 256, k - 1)
  }

  lemma EightMoreBits(m: nat)
    ensures Pow2(m + 8) == 256 * Pow2(m)
  {
    assert Pow2(m + 1) == 2 * Pow2(m) && Pow2(m + 2) == 4 * Pow2(m) && Pow2(m + 3) == 8 * Pow2(m);
    assert Pow2(m + 4) == 16 * Pow2(m) && Pow2(m + 5) == 32 * Pow2(m) && Pow2(m + 6) == 64 * Pow2(m);
    assert Pow2(m + 7) == 128 * Pow2(m);
  }

  lemma {:induction false} BeRoundTrip(n: nat, k: nat)
    requires n < Pow2(8 * k)
    ensures FromBe(Be(n, k)) == n
  {
    if k == 0 {
    } else {
      EightMoreBits(8 * (k - 1));
      BeRoundTrip(n / 256, k - 1);
      assert Be(n, k)[..k - 1] == Be(n / 256, k - 1);
    }
  }

  method Be64ToHost(b: bytes) returns (result: nat)
    ensures result == FromBe(b)
  {
    result := 0;
    for i := 0 to |b|
      invariant result == FromBe(b[..i])
    {
      assert b[..i + 1][..i] == b[..i];
      result := result * 256 + b[i];
    }
    assert b[..|b|] == b;
  }

  // ---- Masking ----

  function Unmask(payload: bytes, key: bytes): (r: bytes)
    requires |key| == 4
    ensures |r| == |payload|
  {
    seq(|payload|, i requires 0 <= i < |payload| => Xor(payload[i], key[i % 4]))
  }

  /** Section 5.3 masks and unmasks with the same operation. */
  lemma UnmaskInvertsMask(payload: bytes, key: bytes)
    requires |key| == 4
    ensures Unmask(Unmask(payload, key), key) == payload
  {
    forall i | 0 <= i < |payload|
      ensures Unmask(Unmask(payload, key), key)[i] == payload[i]
    {
      XorTwice(payload[i], key[i % 4]);
    }
  }

  method UnmaskInPlace(payload: array<byte>, key: bytes)
    requires |key| == 4
    modifies payload
    ensures payload[..] == Unmask(old(payload[..]), key)
  {
    ghost var was := payload[..];
    for i := 0 to payload.Length
      invariant forall j :: 0 <= j < i ==> payload[j] == Unmask(was, key)[j]
      invariant forall j :: i <= j < payload.Length ==> payload[j] == was[j]
    {
      payload[i] := Xor(payload[i], key[i % 4]);
    }
  }

  // ---- One call of Parse ----

  /** `absorbed` counts the bytes the state already summarises when there is no frame. */
  datatype Result = Result(frame: Option<Frame>, state: State, absorbed: nat)

  function Shift(n: nat, r: Result): Result { r.(absorbed := n + r.absorbed) }

  function AfterHeader(b1: byte, b2: byte): State {
    var head := Head(b1 >= 128, b1 % 16, b2 >= 128);
    var code := b2 % 128;
    if code == 126 then AtLength(head, false)
    else if code == 127 then AtLength(head, true)
    else AfterLength(head, code)
  }

  function AfterLength(head: Head, length: nat): State {
    if head.masked then AtMaskKey(head, length) else AtPayload(head, length, [0, 0, 0, 0])
  }

  function Rank(st: State): nat {
    match st
    case AtHeader => 3
    case AtLength(_, _) => 2
    case AtMaskKey(_, _) => 1
    case AtPayload(_, _, _) => 0
  }

  function Parse(st: State, data: bytes): (r: Result)
    ensures r.absorbed <= |data|
    ensures r.frame.Some? ==> r.state == AtHeader
    decreases Rank(st)
  {
    match st
    case AtHeader =>
      if |data| < 2 then Result(None, st, 0)
      else Shift(2, Parse(AfterHeader(data[0], data[1]), data[2..]))
    case AtLength(head, wide) =>
      var n := if wide then 8 else 2;
      if |data| < n then Result(None, st, 0)
      else
        var length := FromBe(data[..n]);
        if wide && length > MAX_PAYLOAD then Result(None, st, 0)
        else Shift(n, Parse(AfterLength(head, length), data[n..]))
    case AtMaskKey(head, length) =>
      if |data| < 4 then Result(None, st, 0)
      else Shift(4, Parse(AtPayload(head, length, data[..4]), data[4..]))
    case AtPayload(head, length, key) =>
      if |data| < length then Result(None, st, 0)
      else
        var payload := if head.masked && |key| == 4 then Unmask(data[..length], key) else data[..length];
        Result(Some(Frame(head, payload)), AtHeader, length)
  }

  ghost predicate Resumes(st: State, a: bytes, b: bytes) {
    var r := Parse(st, a);
    Parse(st, a + b) == if r.frame.Some? then r else Shift(r.absorbed, Parse(r.state, a[r.absorbed..] + b))
  }

  /** Resumability, from any state and for any cut: a call that delivered a frame is
      unaffected by bytes behind it, and a call that delivered none has put into the
      state exactly what it absorbed, so going on from there with only the bytes it
      did not absorb gives what one call on everything would have given. */
  lemma {:induction false} ParseResumes(st: State, a: bytes, b: bytes)
    ensures Resumes(st, a, b)
    decreases Rank(st), 0
  {
    var n := match st case AtHeader => 2 case AtLength(_, wide) => (if wide then 8 else 2)
                      case AtMaskKey(_, _) => 4 case AtPayload(_, length, _) => length;
    if |a| < n {
      assert a[0..] == a;
    } else {
      assert (a + b)[..n] == a[..n] && (a + b)[n..] == a[n..] + b;
      match st
      case AtHeader =>
        ParseResumes(AfterHeader(a[0], a[1]), a[n..], b);
        StageResumes(st, AfterHeader(a[0], a[1]), n, a, b);
      case AtLength(head, wide) =>
        LengthResumes(head, wide, a, b);
      case AtMaskKey(head, length) =>
        ParseResumes(AtPayload(head, length, a[..4]), a[n..], b);
        StageResumes(st, AtPayload(head, length, a[..4]), n, a, b);
      case AtPayload(_, _, _) =>
    }
  }

  lemma {:induction false} LengthResumes(head: Head, wide: bool, a: bytes, b: bytes)
    requires |a| >= if wide then 8 else 2
    ensures Resumes(AtLength(head, wide), a, b)
    decreases 1, 1
  {
    var n := if wide then 8 else 2;
    assert (a + b)[..n] == a[..n] && (a + b)[n..] == a[n..] + b;
    var length := FromBe(a[..n]);
    if wide && length > MAX_PAYLOAD {
      assert a[0..] == a;
    } else {
      ParseResumes(AfterLength(head, length), a[n..], b);
      StageResumes(AtLength(head, wide), AfterLength(head, length), n, a, b);
    }
  }

  lemma StageResumes(st: State, next: State, n: nat, a: bytes, b: bytes)
    requires n <= |a| && Resumes(next, a[n..], b)
    requires Parse(st, a) == Shift(n, Parse(next, a[n..]))
    requires Parse(st, a + b) == Shift(n, Parse(next, a[n..] + b))
    ensures Resumes(st, a, b)
  {
    hide Parse;
    var r := Parse(next, a[n..]);
    assert a[n..][r.absorbed..] == a[n + r.absorbed..];
  }

  // ---- Frames as section 5.2 lays them out ----

  function LengthBytes(n: nat): bytes {
    if n < 126 then [] else if n < 0x1_0000 then Be(n, 2) else Be(n, 8)
  }

  function LengthCode(n: nat): byte {
    if n < 126 then n else if n < 0x1_0000 then 126 else 127
  }

  function RfcFrame(head: Head, key: bytes, payload: bytes): bytes
    requires |key| == 4
  {
    [(if head.fin then 128 else 0) + head.opcode % 16, (if head.masked then 128 else 0) + LengthCode(|payload|)]
    + LengthBytes(|payload|)
    + if head.masked then key + Unmask(payload, key) else payload
  }

  lemma MaskedTail(head: Head, key: bytes, payload: bytes, rest: bytes)
    requires |key| == 4
    ensures
      var tail := if head.masked then key + Unmask(payload, key) else payload;
      Parse(AfterLength(head, |payload|), tail + rest) == Result(Some(Frame(head, payload)), AtHeader, |tail|)
  {
    if head.masked {
      var tail := key + Unmask(payload, key);
      assert (tail + rest)[..4] == key && (tail + rest)[4..] == Unmask(payload, key) + rest;
      assert (Unmask(payload, key) + rest)[..|payload|] == Unmask(payload, key);
      UnmaskInvertsMask(payload, key);
    } else {
      assert (payload + rest)[..|payload|] == payload;
    }
  }

  /** Every frame the standard allows, masked or not, in any of the three length
      forms up to the parser's limit, is parsed back, and exactly the frame is consumed. */
  lemma RfcFrameParses(head: Head, key: bytes, payload: bytes, rest: bytes)
    requires |key| == 4 && head.opcode < 16 && |payload| <= MAX_PAYLOAD
    ensures
      var frame := RfcFrame(head, key, payload);
      Parse(AtHeader, frame + rest) == Result(Some(Frame(head, payload)), AtHeader, |frame|)
  {
    hide Parse, LengthBytes, Unmask;
    var n := |payload|;
    var tail := if head.masked then key + Unmask(payload, key) else payload;
    var b1 := (if head.fin then 128 else 0) + head.opcode % 16;
    var b2 := (if head.masked then 128 else 0) + LengthCode(n);
    assert RfcFrame(head, key, payload) + rest == [b1, b2] + (LengthBytes(n) + (tail + rest));
    HeaderParses(b1, b2, LengthBytes(n) + (tail + rest));
    assert AfterHeader(b1, b2) == if n < 126 then AfterLength(head, n) else AtLength(head, n >= 0x1_0000);
    MaskedTail(head, key, payload, rest);
    if n < 126 {
      assert LengthBytes(n) == [] by { ShortLength(n); }
      assert [] + (tail + rest) == tail + rest;
    } else {
      LengthFieldParses(head, n, tail + rest);
    }
  }

  lemma ShortLength(n: nat)
    requires n < 126
    ensures LengthBytes(n) == []
  {
  }

  lemma HeaderParses(b1: byte, b2: byte, rest: bytes)
    ensures Parse(AtHeader, [b1, b2] + rest) == Shift(2, Parse(AfterHeader(b1, b2), rest))
  {
    assert ([b1, b2] + rest)[2..] == rest;
  }

  lemma LengthFieldParses(head: Head, n: nat, rest: bytes)
    requires 126 <= n <= MAX_PAYLOAD
    ensures Parse(AtLength(head, n >= 0x1_0000), LengthBytes(n) + rest)
         == Shift(|LengthBytes(n)|, Parse(AfterLength(head, n), rest))
  {
    var data, k := LengthBytes(n) + rest, if n >= 0x1_0000 then 8 else 2;
    assert data[..k] == LengthBytes(n) && data[k..] == rest;
    LengthsFit();
    hide Pow2;
    BeRoundTrip(n, k);
    hide FromBe, LengthBytes;
  }

  lemma LengthsFit()
    ensures Pow2(16) == 0x1_0000 && Pow2(32) == 0x1_0000_0000 && Pow2(64) > 0x1_0000_0000
  {
    EightMoreBits(0);
    EightMoreBits(8);
    EightMoreBits(16);
    EightMoreBits(24);
    PowGrows(32, 64);
    assert Pow2(0) == 1;
    hide Pow2;
  }

  lemma {:induction false} PowGrows(a: nat, b: nat)
    requires a < b
    ensures Pow2(a) < Pow2(b)
    decreases b
  {
    if a < b - 1 {
      PowGrows(a, b - 1);
    }
  }

  /** Over the parser's limit a frame is refused, with nothing of its length absorbed, and
      up to it the length is taken. */
  lemma LengthRefusedIff(head: Head, n: nat, rest: bytes)
    requires n < Pow2(64)
    ensures Parse(AtLength(head, true), Be(n, 8) + rest) == Result(None, AtLength(head, true), 0) <==> n > MAX_PAYLOAD
  {
    var data := Be(n, 8) + rest;
    BeRoundTrip(n, 8);
    assert data[..8] == Be(n, 8) && data[8..] == rest;
    hide FromBe, Be, Pow2;
  }

  /** The three reserved bits of the first byte make no difference. */
  lemma ReservedBitsIgnored(fin: bool, reserved: nat, opcode: nat, b2: byte)
    requires reserved < 8 && opcode < 16
    ensures
      var top := if fin then 128 else 0;
      AfterHeader(top + 16 * reserved + opcode, b2) == AfterHeader(top + opcode, b2)
  {
  }

  // ---- The writer ----

  /** WebSocketStreamContext::Write: from 65536 bytes up the length goes out least
      significant byte first. */
  function Written(payload: bytes): bytes {
    var n := |payload|;
    [0x81] + (if n < 126 then [n] else if n < 0x1_0000 then [126, n / 256 % 256, n % 256] else [127] + Le(n, 8)) + payload
  }

  method WriteFrame(data: bytes) returns (out: bytes)
    ensures out == Written(data)
  {
    out := [0x81];
    var len := |data|;
    if len < 126 {
      out := out + [len];
    } else if len < 65536 {
      out := out + [126, len / 256 % 256, len % 256];
    } else {
      out := out + [127];
      var shifted: nat := len;
      for k := 0 to 8
        invariant out + Le(shifted, 8 - k) == [0x81, 127] + Le(len, 8)
      {
        assert Le(shifted, 8 - k) == [shifted % 256] + Le(shifted / 256, 8 - k - 1);
        out, shifted := out + [shifted % 256], shifted / 256;
      }
      assert Le(shifted, 0) == [] && out + [] == out;
    }
    out := out + data;
  }

  const TEXT_HEAD := Head(true, TEXT, false)

  /** Below 65536 bytes the writer writes the frame of section 5.2. */
  lemma ShortFramesAreStandard(payload: bytes)
    requires |payload| < 0x1_0000
    ensures Written(payload) == RfcFrame(TEXT_HEAD, [0, 0, 0, 0], payload)
  {
    var n := |payload|;
    assert Be(n, 2) == [n / 256 % 256, n % 256] by {
      assert Be(n / 256, 1) == Be(n / 256 / 256, 0) + [n / 256 % 256];
    }
  }

  lemma ShortFramesReadBack(payload: bytes, rest: bytes)
    requires |payload| < 0x1_0000
    ensures Parse(AtHeader, Written(payload) + rest) == Result(Some(Frame(TEXT_HEAD, payload)), AtHeader, |Written(payload)|)
  {
    ShortFramesAreStandard(payload);
    RfcFrameParses(TEXT_HEAD, [0, 0, 0, 0], payload, rest);
  }

  lemma {:induction false} FromBeAppend(a: bytes, b: bytes)
    ensures FromBe(a + b) == FromBe(a) * Pow2(8 * |b|) + FromBe(b)
    decreases |b|
  {
    if b == [] {
      assert a + b == a;
    } else {
      var m := 8 * (|b| - 1);
      var init := b[..|b| - 1];
      assert (a + b)[..|a + b| - 1] == a + init;
      FromBeAppend(a, init);
      EightMoreBits(m);
      ShiftedSum(FromBe(a), Pow2(m), FromBe(init), b[|b| - 1]);
    }
  }

  lemma ShiftedSum(x: nat, p: nat, y: nat, low: nat)
    ensures (x * p + y) * 256 + low == x * (256 * p) + (y * 256 + low)
  {
  }

  lemma FromBeFour(b: bytes)
    requires |b| == 4
    ensures FromBe(b) == FromBe32(b)
  {
    assert b[..3][..2] == b[..2] && b[..2][..1] == b[..1] && b[..1][..0] == [];
    assert FromBe(b[..1]) == FromBe([]) * 256 + b[0] == b[0];
    assert FromBe(b[..2]) == FromBe(b[..1]) * 256 + b[1];
    assert FromBe(b[..3]) == FromBe(b[..2]) * 256 + b[2];
  }

  lemma LeHead(n: nat, k: nat)
    requires k > 0
    ensures Le(n, k) == [n % 256] + Le(n / 256, k - 1)
  {
  }

  lemma LeLowBytes(n: nat)
    ensures Le(n, 8)[..4] == [n % 256, n / 0x100 % 256, n / 0x1_0000 % 256, n / 0x100_0000 % 256]
  {
    SplitMod(n, 0x100, 0x100);
    SplitMod(n, 0x1_0000, 0x100);
    LeHead(n, 8);
    LeHead(n / 0x100, 7);
    LeHead(n / 0x1_0000, 6);
    LeHead(n / 0x100_0000, 5);
    hide Le;
  }

  /** What the parser takes the writer's eight length bytes for: never the length,
      and up to 2^32 always something over its limit. */
  lemma SwappedLength(n: nat)
    requires 0x1_0000 <= n
    ensures FromBe(Le(n, 8)) != n || FromBe(Le(n, 8)) > MAX_PAYLOAD
    ensures n < 0x1_0000_0000 ==> FromBe(Le(n, 8)) > MAX_PAYLOAD
  {
    SwappedLengthHigh(n);
    var low, length := FromBe32(Le(n, 8)[..4]), FromBe(Le(n, 8));
    hide Le, FromBe, FromBe32;
    if low > 0 {
      assert length >= 0x1_0000_0000;
    }
  }

  lemma SwappedLengthHigh(n: nat)
    ensures FromBe(Le(n, 8)) >= FromBe32(Le(n, 8)[..4]) * 0x1_0000_0000
    ensures FromBe32(Le(n, 8)[..4]) == 0 ==> n % 0x1_0000_0000 == 0
  {
    var b := Le(n, 8);
    assert b == b[..4] + b[4..];
    FromBeAppend(b[..4], b[4..]);
    FromBeFour(b[..4]);
    LengthsFit();
    hide Pow2, FromBe, Le, FromBe32;
    if FromBe32(b[..4]) == 0 {
      LowBytesZero(n);
    }
  }

  lemma LowBytesZero(n: nat)
    requires FromBe32(Le(n, 8)[..4]) == 0
    ensures n % 0x1_0000_0000 == 0
  {
    LeLowBytes(n);
    Be32RoundTrip(n);
  }

  lemma LongFrameParse(payload: bytes, rest: bytes)
    requires 0x1_0000 <= |payload|
    ensures
      var length := FromBe(Le(|payload|, 8));
      Parse(AtHeader, Written(payload) + rest) ==
      if length > MAX_PAYLOAD then Result(None, AtLength(TEXT_HEAD, true), 2)
      else Shift(10, Parse(AtPayload(TEXT_HEAD, length, [0, 0, 0, 0]), payload + rest))
  {
    hide Le, FromBe;
    var data := Written(payload) + rest;
    var body := Le(|payload|, 8) + (payload + rest);
    assert data == [0x81, 127] + body;
    assert data[2..] == body;
    assert body[..8] == Le(|payload|, 8) && body[8..] == payload + rest;
  }

  /** From 65536 bytes up to the parser's limit of 2^30 and beyond, below 2^32, the
      parser yields no frame for a written one, whatever follows it. */
  lemma LongFramesAreRefused(payload: bytes, rest: bytes)
    requires 0x1_0000 <= |payload| < 0x1_0000_0000
    ensures Parse(AtHeader, Written(payload) + rest) == Result(None, AtLength(TEXT_HEAD, true), 2)
  {
    LongFrameParse(payload, rest);
    SwappedLength(|payload|);
  }

  /** So the parser recovers what the writer wrote exactly below 65536 bytes. */
  lemma WriterReadsBackIff(payload: bytes)
    ensures Parse(AtHeader, Written(payload)).frame == Some(Frame(TEXT_HEAD, payload)) <==> |payload| < 0x1_0000
  {
    assert Written(payload) + [] == Written(payload);
    if |payload| < 0x1_0000 {
      ShortFramesReadBack(payload, []);
    } else {
      LongFrameParse(payload, []);
      SwappedLength(|payload|);
    }
  }

  // ---- The object ----

  datatype Phase = InHeader | InLength | InMaskKey | InPayload

  class FrameParser {
    var phase: Phase             // state_
    var head: Head               // current_frame_ without its payload
    var payloadLength: nat
    var maskKey: bytes
    var bytesNeeded: nat

    ghost predicate Valid()
      reads this
    {
      && |maskKey| == 4
      && (phase.InLength? ==> bytesNeeded == 2 || bytesNeeded == 8)
      && (phase.InMaskKey? ==> head.masked)
      && (phase.InPayload? && !head.masked ==> maskKey == [0, 0, 0, 0])
    }

    ghost function State(): State
      reads this
    {
      match phase
      case InHeader => AtHeader
      case InLength => AtLength(head, bytesNeeded == 8)
      case InMaskKey => AtMaskKey(head, payloadLength)
      case InPayload => AtPayload(head, payloadLength, maskKey)
    }

    constructor ()
      ensures Valid() && State() == AtHeader
    {
      phase, head, payloadLength, maskKey, bytesNeeded := InHeader, TEXT_HEAD, 0, [0, 0, 0, 0], 2;
    }

    /** Four stages over one offset, each skipped unless the state asks for it;
        `consumed` is set only together with a frame. */
    method ParseFrame(data: bytes) returns (frame: Option<Frame>, consumed: nat, ghost absorbed: nat)
      requires Valid()
      modifies this
      ensures Valid()
      ensures Result(frame, State(), absorbed) == Parse(old(State()), data)
      ensures frame.Some? ==> consumed == absorbed
    {
      hide Parse;
      frame, consumed, absorbed := None, 0, 0;
      assert data[0..] == data;
      var offset := TakeHeader(data);
      var rest := data[offset..];
      var n := TakeLength(rest);
      assert rest[n..] == data[offset + n..];
      offset, rest := offset + n, rest[n..];
      n := TakeMaskKey(rest);
      assert rest[n..] == data[offset + n..];
      offset, rest := offset + n, rest[n..];
      frame := TakePayload(rest);
      absorbed := offset;
      if frame.Some? {
        consumed := offset + payloadLength;
        absorbed := consumed;
      }
    }

    /** Each stage, if the state asks for it, takes what it needs off the front of
        `data`; otherwise nothing. */
    method TakeHeader(data: bytes) returns (n: nat)
      requires Valid()
      modifies this
      ensures Valid() && n <= |data|
      ensures Parse(old(State()), data) == Shift(n, Parse(State(), data[n..]))
      ensures phase.InHeader? ==> n == 0 && State() == AtHeader && Parse(AtHeader, data) == Result(None, AtHeader, 0)
    {
      assert data[0..] == data;
      if !phase.InHeader? {
        return 0;
      }
      if |data| < 2 {
        return 0;
      }
      var b1, b2 := data[0], data[1];
      head := Head(b1 >= 128, b1 % 16, b2 >= 128);
      var code := b2 % 128;
      if code == 126 {
        phase, bytesNeeded := InLength, 2;
      } else if code == 127 {
        phase, bytesNeeded := InLength, 8;
      } else {
        payloadLength := code;
        SkipMaskKeyIfUnmasked();
      }
      return 2;
    }

    method TakeLength(data: bytes) returns (n: nat)
      requires Valid()
      modifies this
      ensures Valid() && n <= |data|
      ensures Parse(old(State()), data) == Shift(n, Parse(State(), data[n..]))
      ensures old(phase).InHeader? ==> n == 0 && State() == old(State())
      ensures phase.InHeader? ==> old(phase).InHeader?
      ensures phase.InLength? ==> n == 0 && Parse(State(), data) == Result(None, State(), 0)
    {
      assert data[0..] == data;
      if !phase.InLength? {
        return 0;
      }
      if |data| < bytesNeeded {
        return 0;
      }
      n := bytesNeeded;
      var length := Be64ToHost(data[..n]);
      if n == 8 && length > MAX_PAYLOAD {
        return 0;
      }
      payloadLength := length;
      SkipMaskKeyIfUnmasked();
    }

    method SkipMaskKeyIfUnmasked()
      requires |maskKey| == 4
      modifies `phase, `maskKey, `bytesNeeded
      ensures Valid() && State() == AfterLength(head, payloadLength)
    {
      if head.masked {
        phase, bytesNeeded := InMaskKey, 4;
      } else {
        phase, bytesNeeded, maskKey := InPayload, payloadLength, [0, 0, 0, 0];
      }
    }

    method TakeMaskKey(data: bytes) returns (n: nat)
      requires Valid()
      modifies this
      ensures Valid() && n <= |data|
      ensures Parse(old(State()), data) == Shift(n, Parse(State(), data[n..]))
      ensures old(phase).InHeader? || old(phase).InLength? ==> n == 0 && State() == old(State())
      ensures phase.InHeader? || phase.InLength? ==> phase == old(phase)
      ensures phase.InMaskKey? ==> n == 0 && Parse(State(), data) == Result(None, State(), 0)
    {
      assert data[0..] == data;
      if !phase.InMaskKey? {
        return 0;
      }
      if |data| < 4 {
        return 0;
      }
      maskKey := data[..4];
      phase, bytesNeeded := InPayload, payloadLength;
      return 4;
    }

    method TakePayload(data: bytes) returns (frame: Option<Frame>)
      requires Valid()
      requires !phase.InPayload? ==> Parse(State(), data) == Result(None, State(), 0)
      modifies this
      ensures Valid() && payloadLength == old(payloadLength)
      ensures Result(frame, State(), if frame.Some? then payloadLength else 0) == Parse(old(State()), data)
    {
      if !phase.InPayload? || |data| < payloadLength {
        return None;
      }
      var payload := CopyPayload(data[..payloadLength]);
      frame := Some(Frame(head, payload));
      phase := InHeader;
    }

    method CopyPayload(data: bytes) returns (payload: bytes)
      requires Valid()
      ensures payload == if head.masked then Unmask(data, maskKey) else data
    {
      var copy := new byte[|data|](i requires 0 <= i < |data| => data[i]);
      assert copy[..] == data;
      if head.masked {
        UnmaskInPlace(copy, maskKey);
      }
      return copy[..];
    }
  }
}
