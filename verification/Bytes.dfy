/** Byte strings, the byte orders the wire formats use, and delivery in chunks. */
module Bytes {

  type byte = x: int | 0 <= x < 256

  type bytes = seq<byte>

  datatype Option<+T> = None | Some(value: T)

  /** The bytes of a character literal (every literal used here is ASCII). */
  function Ascii(s: string): bytes {
    seq(|s|, i requires 0 <= i < |s| => s[i] as int % 256)
  }

  function Min(a: int, b: int): int { if a < b then a else b }

  function Max(a: int, b: int): int { if a < b then b else a }

  function Flatten<T>(parts: seq<seq<T>>): seq<T> {
    if parts == [] then [] else parts[0] + Flatten(parts[1..])
  }

  lemma Assoc<T>(a: seq<T>, b: seq<T>, c: seq<T>)
    ensures a + (b + c) == (a + b) + c
  {
  }

  lemma {:induction false} FlattenAppend<T>(a: seq<seq<T>>, b: seq<seq<T>>)
    ensures Flatten(a + b) == Flatten(a) + Flatten(b)
  {
    if a == [] {
      assert a + b == b;
    } else {
      calc {
        Flatten(a + b);
        { assert (a + b)[0] == a[0] && (a + b)[1..] == a[1..] + b; }
        a[0] + Flatten(a[1..] + b);
        { FlattenAppend(a[1..], b); }
        a[0] + (Flatten(a[1..]) + Flatten(b));
        { Assoc(a[0], Flatten(a[1..]), Flatten(b)); }
        Flatten(a) + Flatten(b);
      }
    }
  }

  lemma FlattenSnoc<T>(a: seq<seq<T>>, x: seq<T>)
    ensures Flatten(a + [x]) == Flatten(a) + x
  {
    FlattenAppend(a, [x]);
    assert Flatten([x]) == x + Flatten<T>([]);
  }

  // ---- Big-endian integers ----

  /** The low 16, 24 or 32 bits of n, most significant byte first. */
  function Be16(n: nat): (b: bytes)
    ensures |b| == 2
  {
    [n / 0x100 % 256, n % 256]
  }

  function Be24(n: nat): (b: bytes)
    ensures |b| == 3
  {
    [n / 0x1_0000 % 256, n / 0x100 % 256, n % 256]
  }

  function Be32(n: nat): (b: bytes)
    ensures |b| == 4
  {
    [n / 0x100_0000 % 256] + Be24(n)
  }

  function FromBe16(b: bytes): nat
    requires |b| == 2
  {
    b[0] as int * 0x100 + b[1]
  }

  function FromBe24(b: bytes): nat
    requires |b| == 3
  {
    b[0] as int * 0x1_0000 + b[1] as int * 0x100 + b[2]
  }

  function FromBe32(b: bytes): (n: nat)
    requires |b| == 4
    ensures n < 0x1_0000_0000
  {
    b[0] as int * 0x100_0000 + b[1] as int * 0x1_0000 + b[2] as int * 0x100 + b[3]
  }

  lemma Be16RoundTrip(n: nat)
    ensures FromBe16(Be16(n)) == n % 0x1_0000
  {
    SplitMod(n, 0x100, 0x100);
  }

  lemma Be24RoundTrip(n: nat)
    ensures FromBe24(Be24(n)) == n % 0x100_0000
  {
    Be16RoundTrip(n);
    SplitMod(n, 0x1_0000, 0x100);
  }

  lemma Be32RoundTrip(n: nat)
    ensures FromBe32(Be32(n)) == n % 0x1_0000_0000
  {
    Be24RoundTrip(n);
    SplitMod(n, 0x100_0000, 0x100);
  }

  /** Dividing by a and then by b: the low digits of n are n / a modulo b above n modulo a. */
  lemma SplitMod(n: nat, a: nat, b: nat)
    requires a > 0 && b > 0
    ensures a * b > 0 && n % (a * b) == n / a % b * a + n % a && n / (a * b) == n / a / b
  {
    var q, low := n / a, n % a;
    var high, digit := q / b, q % b;
    DivMod(n, a);
    DivMod(q, b);
    TwoDigits(high, b, digit, a, low);
    ModUnique(n, a * b, high, digit * a + low);
  }

  lemma DivMod(n: nat, a: nat)
    requires a > 0
    ensures n == n / a * a + n % a && n % a < a && n / a >= 0
  {
  }

  lemma TwoDigits(high: nat, b: nat, digit: nat, a: nat, low: nat)
    requires digit < b && low < a
    ensures (high * b + digit) * a + low == high * (a * b) + (digit * a + low)
    ensures 0 <= digit * a + low < a * b
  {
    assert digit * a <= (b - 1) * a;
    assert (b - 1) * a == a * b - a;
  }

  lemma ModUnique(n: nat, m: nat, q: nat, r: nat)
    requires m > 0 && r < m && n == q * m + r
    ensures n % m == r && n / m == q
  {
    DivMod(n, m);
    SameQuotient(n / m, n % m, q, r, m);
  }

  lemma SameQuotient(p: nat, r: nat, q: nat, s: nat, m: nat)
    requires r < m && s < m && p * m + r == q * m + s
    ensures p == q && r == s
  {
    if p > q {
      LargerQuotient(p, r, q, s, m);
    } else if p < q {
      LargerQuotient(q, s, p, r, m);
    }
  }

  lemma LargerQuotient(p: nat, r: nat, q: nat, s: nat, m: nat)
    requires q < p && s < m
    ensures q * m + s < p * m + r
  {
    assert (q + 1) * m == q * m + m;
    MulMonotone(q + 1, p, m);
  }

  lemma MulMonotone(a: nat, b: nat, m: nat)
    requires a <= b
    ensures a * m <= b * m
  {
  }

  lemma ModOfSum(a: nat, m: nat, r: nat)
    requires m > 0 && a % m == 0 && r < m
    ensures (a + r) % m == r
  {
    ModUnique(a + r, m, a / m, r);
  }

  lemma Be24WritesBack(b: bytes)
    requires |b| == 3
    ensures Be24(FromBe24(b)) == b
  {
    var n, high := FromBe24(b), b[0] as int * 0x100 + b[1];
    ModUnique(n, 0x100, high, b[2]);
    ModUnique(high, 0x100, b[0], b[1]);
    ModUnique(n, 0x1_0000, b[0], b[1] as int * 0x100 + b[2]);
  }

  lemma Be32WritesBack(b: bytes)
    requires |b| == 4
    ensures Be32(FromBe32(b)) == b
  {
    var n, low := FromBe32(b), b[1] as int * 0x1_0000 + b[2] as int * 0x100 + b[3];
    ModUnique(n, 0x100_0000, b[0], low);
    ModUnique(n, 0x1_0000, b[0] as int * 0x100 + b[1], b[2] as int * 0x100 + b[3]);
    ModUnique(n, 0x100, b[0] as int * 0x1_0000 + b[1] as int * 0x100 + b[2], b[3]);
    ModUnique(b[0] as int * 0x100 + b[1], 0x100, b[0], b[1]);
    ModUnique(b[0] as int * 0x1_0000 + b[1] as int * 0x100 + b[2], 0x100, b[0] as int * 0x100 + b[1], b[2]);
  }

  // ---- Delivery in chunks ----

  /** The state after `deliver` has been handed each chunk in turn. */
  function Feed<S>(deliver: (S, bytes) -> S, s: S, chunks: seq<bytes>): S
    decreases chunks
  {
    if chunks == [] then s else Feed(deliver, deliver(s, chunks[0]), chunks[1..])
  }

  /** Delivering a and then b has the effect of delivering a + b at once. */
  ghost predicate ChunkBlind<S(!new)>(deliver: (S, bytes) -> S) {
    forall s: S, a: bytes, b: bytes :: deliver(deliver(s, a), b) == deliver(s, a + b)
  }

  /** However a byte string is cut up, a chunk-blind receiver ends in the state
      one delivery of the whole string would have left it in. */
  lemma {:induction false} FeedIsOneDelivery<S(!new)>(deliver: (S, bytes) -> S, s: S, chunks: seq<bytes>)
    requires ChunkBlind(deliver)
    requires chunks != []
    ensures Feed(deliver, s, chunks) == deliver(s, Flatten(chunks))
    decreases chunks
  {
    if |chunks| == 1 {
      assert chunks[1..] == [];
      assert Flatten(chunks) == chunks[0];
    } else {
      FeedIsOneDelivery(deliver, deliver(s, chunks[0]), chunks[1..]);
    }
  }

  lemma {:induction false} FeedAppend<S>(deliver: (S, bytes) -> S, s: S, a: seq<bytes>, b: seq<bytes>)
    ensures Feed(deliver, s, a + b) == Feed(deliver, Feed(deliver, s, a), b)
    decreases a
  {
    if a == [] {
      assert a + b == b;
    } else {
      assert (a + b)[1..] == a[1..] + b;
      FeedAppend(deliver, deliver(s, a[0]), a[1..], b);
    }
  }

  lemma {:induction false} FeedSnoc<S>(deliver: (S, bytes) -> S, s: S, chunks: seq<bytes>, last: bytes)
    ensures Feed(deliver, s, chunks + [last]) == deliver(Feed(deliver, s, chunks), last)
    decreases chunks
  {
    if chunks == [] {
    } else {
      assert (chunks + [last])[1..] == chunks[1..] + [last];
      FeedSnoc(deliver, deliver(s, chunks[0]), chunks[1..], last);
    }
  }
}
