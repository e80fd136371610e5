/** The part of XDR (RFC 4506) the metadata formats use: 32-bit and 64-bit integers (sections
    4.1, 4.5), fixed-length and variable-length opaque data (sections 4.9, 4.10). A failed read
    is `Bad`; a successful one hands back the value and the unread rest. */
module Xdr {
  import opened Bytes

  datatype Read<+T> = Bad | Got(value: T, rest: bytes)
  {
    predicate IsFailure() { Bad? }
    function PropagateFailure<U>(): Read<U> requires Bad? { Bad }
    function Extract(): (T, bytes) requires Got? { (value, rest) }
  }

  // ----- integers -----

  /** The low `n` base-256 digits of `x`, most significant first. */
  function Digits(x: nat, n: nat): (s: bytes)
    ensures |s| == n
  {
    if n == 0 then [] else Digits(x / 0x100, n - 1) + [x % 0x100]
  }

  function Value(s: bytes): nat {
    if s == [] then 0 else Value(s[..|s| - 1]) * 0x100 + s[|s| - 1]
  }

  function Pow256(n: nat): nat { if n == 0 then 1 else 0x100 * Pow256(n - 1) }

  lemma {:induction false} ValueBound(s: bytes)
    ensures Value(s) < Pow256(|s|)
  {
    if s != [] {
      ValueBound(s[..|s| - 1]);
    }
  }

  lemma {:induction false} ValueOfDigits(x: nat, n: nat)
    requires x < Pow256(n)
    ensures Value(Digits(x, n)) == x
  {
    if n != 0 {
      var q, r := x / 0x100, x % 0x100;
      assert x == q * 0x100 + r && q < Pow256(n - 1);
      assert Digits(x, n) == Digits(q, n - 1) + [r];
      assert Digits(x, n)[..n - 1] == Digits(q, n - 1);
      ValueOfDigits(q, n - 1);
    }
  }

  lemma WordSizes()
    ensures Pow256(4) == TWO32 && Pow256(8) == TWO64
  {
    assert Pow256(2) == 0x1_0000;
    assert Pow256(4) == 0x1_0000_0000;
    assert Pow256(6) == 0x1_0000_0000_0000;
  }

  function GetWord(s: bytes, n: nat): Read<nat> {
    if |s| < n then Bad else Got(Value(s[..n]), s[n..])
  }

  lemma WordRoundTrip(x: nat, n: nat, rest: bytes)
    requires x < Pow256(n)
    ensures GetWord(Digits(x, n) + rest, n) == Got(x, rest)
  {
    ValueOfDigits(x, n);
    assert (Digits(x, n) + rest)[..n] == Digits(x, n);
    assert (Digits(x, n) + rest)[n..] == rest;
  }

  function PutU32(x: u32): (s: bytes)
    ensures |s| == 4
  {
    Digits(x, 4)
  }

  function GetU32(s: bytes): Read<u32> {
    match GetWord(s, 4)
    case Bad => Bad
    case Got(x, rest) =>
      ValueBound(s[..4]);
      WordSizes();
      Got(x, rest)
  }

  lemma U32RoundTrip(x: u32, rest: bytes)
    ensures GetU32(PutU32(x) + rest) == Got(x, rest)
  {
    WordSizes();
    WordRoundTrip(x, 4, rest);
  }

  predicate IsI32(x: int) { -TWO31 <= x < TWO31 }
  predicate IsI64(x: int) { -TWO63 <= x < TWO63 }

  /** Two's complement of `x` in a word of `size` values, and back. */
  function Wrap(x: int, size: nat): (w: nat)
    requires size > 0
    ensures w < size
  {
    x % size
  }

  function Unwrap(w: nat, size: nat): int { if w < size / 2 then w else w - size }

  lemma WrapRoundTrip(x: int, size: nat)
    requires size == TWO32 || size == TWO64
    requires -(size / 2) <= x < size / 2
    ensures Unwrap(Wrap(x, size), size) == x
    ensures 0 <= x ==> Wrap(x, size) == x
  {
  }

  function PutI32(x: int): (s: bytes)
    ensures |s| == 4
  {
    PutU32(Wrap(x, TWO32))
  }

  function GetI32(s: bytes): Read<int> {
    var (w, rest) :- GetU32(s);
    Got(Unwrap(w, TWO32), rest)
  }

  lemma I32RoundTrip(x: int, rest: bytes)
    requires IsI32(x)
    ensures GetI32(PutI32(x) + rest) == Got(x, rest)
  {
    WrapRoundTrip(x, TWO32);
    U32RoundTrip(Wrap(x, TWO32), rest);
  }

  function PutI64(x: int): (s: bytes)
    ensures |s| == 8
  {
    Digits(Wrap(x, TWO64), 8)
  }

  function GetI64(s: bytes): Read<int> {
    var (w, rest) :- GetWord(s, 8);
    Got(Unwrap(w, TWO64), rest)
  }

  lemma I64RoundTrip(x: int, rest: bytes)
    requires IsI64(x)
    ensures GetI64(PutI64(x) + rest) == Got(x, rest)
  {
    WrapRoundTrip(x, TWO64);
    WordSizes();
    WordRoundTrip(Wrap(x, TWO64), 8, rest);
  }

  // ----- a run of words of given widths -----

  function Sum(widths: seq<nat>): nat { if widths == [] then 0 else widths[0] + Sum(widths[1..]) }

  function PutWords(vals: seq<nat>, widths: seq<nat>): (s: bytes)
    requires |vals| == |widths|
    ensures |s| == Sum(widths)
  {
    if widths == [] then [] else Digits(vals[0], widths[0]) + PutWords(vals[1..], widths[1..])
  }

  function GetWords(s: bytes, widths: seq<nat>): (r: Read<seq<nat>>)
    ensures r.Got? ==> |r.value| == |widths|
    ensures r.Got? ==> forall i :: 0 <= i < |widths| ==> r.value[i] < Pow256(widths[i])
  {
    if widths == [] then Got([], s) else
      match GetWord(s, widths[0])
      case Bad => Bad
      case Got(x, s1) =>
        ValueBound(s[..widths[0]]);
        match GetWords(s1, widths[1..])
        case Bad => Bad
        case Got(xs, s2) => Got([x] + xs, s2)
  }

  lemma GetWordsStep(s: bytes, widths: seq<nat>, x: nat, s1: bytes, xs: seq<nat>, s2: bytes)
    requires widths != [] && GetWord(s, widths[0]) == Got(x, s1) && GetWords(s1, widths[1..]) == Got(xs, s2)
    ensures GetWords(s, widths) == Got([x] + xs, s2)
  {
  }

  lemma {:induction false} WordsRoundTrip(vals: seq<nat>, widths: seq<nat>, rest: bytes)
    requires |vals| == |widths| && forall i :: 0 <= i < |vals| ==> vals[i] < Pow256(widths[i])
    ensures GetWords(PutWords(vals, widths) + rest, widths) == Got(vals, rest)
  {
    if widths == [] {
      assert PutWords(vals, widths) + rest == rest;
    } else {
      var tail := PutWords(vals[1..], widths[1..]) + rest;
      assert PutWords(vals, widths) + rest == Digits(vals[0], widths[0]) + tail;
      WordRoundTrip(vals[0], widths[0], tail);
      WordsRoundTrip(vals[1..], widths[1..], rest);
      GetWordsStep(PutWords(vals, widths) + rest, widths, vals[0], tail, vals[1..], rest);
      assert [vals[0]] + vals[1..] == vals;
    }
  }

  // ----- opaque data -----

  /** Fixed-length data whose length is a multiple of four: no padding. */
  function GetRaw(s: bytes, n: nat): Read<bytes> {
    if |s| < n then Bad else Got(s[..n], s[n..])
  }

  lemma RawRoundTrip(d: bytes, rest: bytes)
    ensures GetRaw(d + rest, |d|) == Got(d, rest)
  {
    assert (d + rest)[..|d|] == d && (d + rest)[|d|..] == rest;
  }

  function Zeros(n: nat): (s: bytes)
    ensures |s| == n
  {
    seq(n, _ => 0)
  }

  /** Number of zero bytes that bring `n` up to a multiple of four. */
  function Padding(n: nat): nat { (4 - n % 4) % 4 }

  function PutOpaque(d: bytes): (s: bytes)
    requires |d| < TWO32
    ensures |s| == 4 + |d| + Padding(|d|)
  {
    PutU32(|d|) + d + Zeros(Padding(|d|))
  }

  function GetOpaque(s: bytes): Read<bytes> {
    var (n, s1) :- GetU32(s);
    var (d, s2) :- GetRaw(s1, n);
    var (_, s3) :- GetRaw(s2, Padding(n));
    Got(d, s3)
  }

  lemma OpaqueRoundTrip(d: bytes, rest: bytes)
    requires |d| < TWO32
    ensures GetOpaque(PutOpaque(d) + rest) == Got(d, rest)
  {
    var pad := Zeros(Padding(|d|));
    assert PutOpaque(d) + rest == PutU32(|d|) + (d + (pad + rest));
    U32RoundTrip(|d|, d + (pad + rest));
    RawRoundTrip(d, pad + rest);
    RawRoundTrip(pad, rest);
  }
}
