/** The pieces of C++ text handling the HTTP parser and printer lean on: stream
    extraction of words, std::stoi and decimal output. */
module HttpText {
  import opened Bytes

  const CR: byte := 13
  const LF: byte := 10
  const SPACE: byte := 32
  const COLON: byte := 58
  const INT_MAX := 0x7FFF_FFFF

  predicate IsSpace(b: byte) { b == SPACE || 9 <= b <= 13 }

  predicate IsDigit(b: byte) { 48 <= b <= 57 }

  function SkipSpaces(s: bytes): bytes {
    if s != [] && IsSpace(s[0]) then SkipSpaces(s[1..]) else s
  }

  function WordLength(s: bytes): (n: nat)
    ensures n <= |s|
    ensures n < |s| ==> IsSpace(s[n])
    ensures forall i :: 0 <= i < n ==> !IsSpace(s[i])
  {
    if s == [] || IsSpace(s[0]) then 0 else 1 + WordLength(s[1..])
  }

  /** `stream >> word`: at the end of the stream the old value stays. */
  function ReadWord(s: bytes, before: bytes): (bytes, bytes) {
    var t := SkipSpaces(s);
    if t == [] then (before, []) else (t[..WordLength(t)], t[WordLength(t)..])
  }

  ghost predicate IsWord(w: bytes) {
    w != [] && forall i :: 0 <= i < |w| ==> !IsSpace(w[i])
  }

  lemma {:induction false} WordLengthIs(w: bytes, rest: bytes)
    requires forall i :: 0 <= i < |w| ==> !IsSpace(w[i])
    requires rest != [] ==> IsSpace(rest[0])
    ensures WordLength(w + rest) == |w|
  {
    if w == [] {
      assert w + rest == rest;
    } else {
      WordLengthIs(w[1..], rest);
      assert (w + rest)[1..] == w[1..] + rest;
    }
  }

  lemma ReadsWord(w: bytes, rest: bytes, before: bytes)
    requires IsWord(w) && (rest != [] ==> IsSpace(rest[0]))
    ensures ReadWord(w + rest, before) == (w, rest)
    ensures ReadWord([SPACE] + (w + rest), before) == (w, rest)
  {
    var s := w + rest;
    WordLengthIs(w, rest);
    assert s[..|w|] == w && s[|w|..] == rest;
    assert ([SPACE] + s)[1..] == s;
  }

  // ---- Numbers ----

  function Value(digits: bytes): nat
    requires forall d <- digits :: IsDigit(d)
  {
    if digits == [] then 0
    else
      assert IsDigit(digits[|digits| - 1]);
      Value(digits[..|digits| - 1]) * 10 + (digits[|digits| - 1] as int - 48)
  }

  function DigitCount(s: bytes): (n: nat)
    ensures n <= |s|
    ensures forall d <- s[..n] :: IsDigit(d)
    ensures n < |s| ==> !IsDigit(s[n])
  {
    if s == [] || !IsDigit(s[0]) then 0
    else
      assert s[..1 + DigitCount(s[1..])] == [s[0]] + s[1..][..DigitCount(s[1..])];
      1 + DigitCount(s[1..])
  }

  /** std::stoi: leading space, an optional sign, then digits; None is an exception,
      for a number that is missing or does not fit an int. */
  function Stoi(s: bytes): Option<int> {
    var t := SkipSpaces(s);
    var negative := t != [] && t[0] == 45;
    var u := if t != [] && (t[0] == 43 || t[0] == 45) then t[1..] else t;
    var n := DigitCount(u);
    if n == 0 then None
    else
      var v: int := Value(u[..n]);
      if negative then (if v > INT_MAX + 1 then None else Some(-v))
      else if v > INT_MAX then None else Some(v)
  }

  function Decimal(n: nat): (s: bytes)
    ensures s != [] && forall d <- s :: IsDigit(d)
  {
    if n < 10 then [48 + n] else Decimal(n / 10) + [48 + n % 10]
  }

  lemma {:induction false} DecimalValue(n: nat)
    ensures Value(Decimal(n)) == n
  {
    if n >= 10 {
      DecimalValue(n / 10);
      assert Decimal(n)[..|Decimal(n)| - 1] == Decimal(n / 10);
    }
  }

  lemma {:induction false} AllDigits(s: bytes)
    requires forall d <- s :: IsDigit(d)
    ensures DigitCount(s) == |s|
  {
    if s == [] {
    } else {
      AllDigits(s[1..]);
    }
  }

  /** Printing a size and reading it back, up to what an int can hold. */
  lemma StoiOfDecimal(n: nat)
    ensures Stoi(Decimal(n)) == if n <= INT_MAX then Some(n) else None
  {
    var s := Decimal(n);
    AllDigits(s);
    DecimalValue(n);
    assert IsDigit(s[0]);
    assert s[..|s|] == s;
  }
}
