/** Adler-32 as in section 8.2 of RFC 1950: the byte-by-byte definition, the blocked loop with
    delayed modulo that computes it, and the composition of two checksums from the length of
    the second block alone. */
module Adler32 {
  import opened Bytes

  const BASE: int := 65521
  const BLOCK: int := 5550
  const INIT: u32 := 1

  /** The two running sums of section 8.2 of RFC 1950. */
  datatype Halves = Halves(a: nat, b: nat)

  function Step(s: Halves, x: byte): Halves {
    var a := (s.a + x) % BASE;
    Halves(a, (s.b + a) % BASE)
  }

  /** Byte-by-byte definition: a modulo after every byte. */
  function Run(s: Halves, d: bytes): Halves {
    if d == [] then s else Step(Run(s, d[..|d| - 1]), d[|d| - 1])
  }

  function Unpack(w: u32): (s: Halves)
    ensures s.a < TWO16 && s.b < TWO16 && Pack(s) == w
  {
    Halves(w % TWO16, w / TWO16)
  }

  function Pack(s: Halves): u32
    requires s.a < TWO16 && s.b < TWO16
  {
    s.b * TWO16 + s.a
  }

  lemma RunBound(s: Halves, d: bytes)
    requires s.a < TWO16 && s.b < TWO16
    ensures Run(s, d).a < TWO16 && Run(s, d).b < TWO16
    ensures d != [] || (s.a < BASE && s.b < BASE) ==> Run(s, d).a < BASE && Run(s, d).b < BASE
  {
  }

  /** The checksum of `d` continued from `init`. */
  function Sum(d: bytes, init: u32): u32 {
    RunBound(Unpack(init), d);
    Pack(Run(Unpack(init), d))
  }

  function Of(d: bytes): u32 { Sum(d, INIT) }

  // ----- the unreduced sums -----

  /** The same sums with no modulo at all: what the inner loop accumulates. */
  function Raw(s: Halves, d: bytes): (r: Halves)
    ensures s.a <= r.a && s.b <= r.b
  {
    if d == [] then s else
      var r := Raw(s, d[..|d| - 1]);
      Halves(r.a + d[|d| - 1], r.b + r.a + d[|d| - 1])
  }

  ghost predicate Congruent(s: Halves, t: Halves) {
    s.a % BASE == t.a % BASE && s.b % BASE == t.b % BASE
  }

  function Reduce(s: Halves): Halves { Halves(s.a % BASE, s.b % BASE) }

  lemma ResidueAdd(x: int, y: int, v: int, w: int)
    requires x % BASE == y % BASE && v % BASE == w % BASE
    ensures (x + v) % BASE == (y + w) % BASE
  {
  }

  lemma StepIsRaw(s: Halves, t: Halves, x: byte)
    requires Congruent(s, t)
    ensures Step(s, x) == Reduce(Halves(t.a + x, t.b + t.a + x))
    ensures Congruent(Step(s, x), Halves(t.a + x, t.b + t.a + x))
  {
    var v: int := x;
    ResidueAdd(s.a, t.a, v, v);
    ResidueAdd(s.b, t.b, (s.a + x) % BASE, t.a + x);
    assert t.b + (t.a + x) == t.b + t.a + x;
  }

  /** Reducing after every byte and reducing only at the end agree, from congruent starts. */
  lemma {:induction false} RunIsRaw(s: Halves, t: Halves, d: bytes)
    requires Congruent(s, t)
    ensures Congruent(Run(s, d), Raw(t, d))
    ensures d != [] ==> Run(s, d) == Reduce(Raw(t, d))
  {
    if d != [] {
      var p := d[..|d| - 1];
      RunIsRaw(s, t, p);
      StepIsRaw(Run(s, p), Raw(t, p), d[|d| - 1]);
    }
  }

  lemma {:induction false} RunConcat(s: Halves, x: bytes, y: bytes)
    ensures Run(s, x + y) == Run(Run(s, x), y)
  {
    if y == [] {
      assert x + y == x;
    } else {
      assert (x + y)[..|x + y| - 1] == x + y[..|y| - 1];
      RunConcat(s, x, y[..|y| - 1]);
    }
  }

  // ----- the blocked loop -----

  lemma {:induction false} RawBound(s: Halves, d: bytes)
    ensures Raw(s, d).a <= s.a + 255 * |d|
    ensures 2 * Raw(s, d).b <= 2 * s.b + 2 * (|d| * s.a) + 255 * (|d| * (|d| + 1))
  {
    if d != [] {
      var n := |d| - 1;
      RawBound(s, d[..n]);
      assert |d| * s.a == n * s.a + s.a;
      assert |d| * (|d| + 1) == n * (n + 1) + 2 * |d|;
    }
  }

  lemma MulMono(m: nat, n: nat, x: nat, y: nat)
    requires m <= n && x <= y
    ensures m * x <= n * y
  {
    assert m * x <= n * x;
    assert n * x <= n * y;
  }

  /** One block of 5550 bytes stays below 2^32 from any pair of 16-bit halves. */
  lemma BlockFits(s: Halves, d: bytes)
    requires s.a < TWO16 && s.b < TWO16 && |d| <= BLOCK
    ensures Raw(s, d).a <= Raw(s, d).b + TWO16 && Raw(s, d).b <= 4291811160 < TWO32
    ensures Raw(s, d).a < TWO32
  {
    RawBound(s, d);
    MulMono(|d|, BLOCK, s.a, TWO16 - 1);
    MulMono(|d|, BLOCK, |d| + 1, BLOCK + 1);
  }

  lemma BlockStep(s: Halves, d: bytes, m: nat, j: nat)
    requires s.a < TWO16 && s.b < TWO16 && m <= j < |d| && j - m < BLOCK
    ensures var r := Raw(s, d[m..j]);
            Raw(s, d[m..j + 1]) == Halves(r.a + d[j], r.b + r.a + d[j]) &&
            r.a + d[j] < TWO32 && r.b + r.a + d[j] < TWO32
  {
    assert d[m..j + 1][..j - m] == d[m..j];
    BlockFits(s, d[m..j + 1]);
  }

  lemma ReduceBlock(s: Halves, d: bytes, m: nat, n: nat)
    requires m < n <= |d|
    ensures Run(s, d[..n]) == Reduce(Raw(Run(s, d[..m]), d[m..n]))
  {
    assert d[..n] == d[..m] + d[m..n];
    RunConcat(s, d[..m], d[m..n]);
    RunIsRaw(Run(s, d[..m]), Run(s, d[..m]), d[m..n]);
  }

  /** `adler32`: sums up to 5550 bytes in 32-bit accumulators before each modulo. */
  method Compute(data: bytes, init: u32) returns (sum: u32)
    ensures sum == Sum(data, init)
  {
    ghost var s := Unpack(init);
    var a: u32, b: u32 := init % TWO16, init / TWO16;
    var j := 0;
    while j < |data|
      invariant 0 <= j <= |data|
      invariant Halves(a, b) == Run(s, data[..j])
      invariant a < TWO16 && b < TWO16
    {
      var k := if j + BLOCK < |data| then j + BLOCK else |data|;
      ghost var m, start := j, Halves(a, b);
      while j < k
        invariant m <= j <= k
        invariant Halves(a, b) == Raw(start, data[m..j])
      {
        BlockStep(start, data, m, j);
        a := a + data[j];
        b := b + a;
        j := j + 1;
      }
      ReduceBlock(s, data, m, k);
      a := a % BASE;
      b := b % BASE;
    }
    assert data[..j] == data;
    sum := b * TWO16 + a;
  }

  // ----- composition -----

  /** `adler32cat` in unsigned 32-bit arithmetic: the subtractions wrap at 2^32. */
  function Cat(sum1: u32, sum2: u32, len2: nat): u32 {
    var len2mod := len2 % BASE;
    var s1, s2 := Unpack(sum1), Unpack(sum2);
    var a := ((s1.a + s2.a - 1) % TWO32) % BASE;
    var b := ((s1.a * len2mod + s1.b + s2.b - len2mod) % TWO32) % BASE;
    Pack(Halves(a, b))
  }

  /** The guard of the composition: neither 32-bit subtraction goes below zero. */
  predicate NoWrap(sum1: u32, sum2: u32, len2: nat) {
    var s1, s2 := Unpack(sum1), Unpack(sum2);
    s1.a != 0 || (s2.a != 0 && s1.b + s2.b >= len2 % BASE)
  }

  const START := Halves(1, 0)

  lemma UnpackPack(s: Halves)
    requires s.a < TWO16 && s.b < TWO16
    ensures Unpack(Pack(s)) == s
  {
  }

  lemma OfHalves(d: bytes)
    ensures Unpack(Of(d)) == Run(START, d)
    ensures Run(START, d).a < BASE && Run(START, d).b < BASE
  {
    RunBound(START, d);
    UnpackPack(START);
    UnpackPack(Run(START, d));
  }

  lemma MulMod(a: nat, n: nat)
    ensures (a * n) % BASE == (a * (n % BASE)) % BASE
  {
    var q := n / BASE;
    assert n == q * BASE + n % BASE;
    assert a * n == (a * q) * BASE + a * (n % BASE) by {
      assert a * n == a * (q * BASE + n % BASE);
      assert a * (q * BASE) == (a * q) * BASE;
    }
    ModMultiple(a * (n % BASE), a * q);
  }

  lemma ModMultiple(x: int, k: int)
    ensures (k * BASE + x) % BASE == x % BASE
  {
    var q, r := x / BASE, x % BASE;
    assert k * BASE + x == (k + q) * BASE + r;
  }

  /** How the unreduced sums depend on where they start: the law behind the composition. */
  lemma {:induction false} RawFrom(s: Halves, y: bytes)
    ensures Raw(s, y).a == s.a + Raw(START, y).a - 1
    ensures Raw(s, y).b == s.b + s.a * |y| + Raw(START, y).b - |y|
  {
    if y == [] {
      assert s.a * |y| == 0;
    } else {
      var n := |y| - 1;
      RawFrom(s, y[..n]);
      assert s.a * (n + 1) == s.a * n + s.a;
    }
  }

  lemma ResidueA(x: int, s: int, r: int, t: int)
    requires x == s + r - 1 && r % BASE == t % BASE
    ensures x % BASE == (s + t - 1) % BASE
  {
  }

  lemma ResidueB(x: int, sa: nat, sb: nat, n: nat, r: int, t: int)
    requires x == sb + sa * n + r - n && r % BASE == t % BASE
    ensures x % BASE == (sa * (n % BASE) + sb + t - n % BASE) % BASE
  {
    MulMod(sa, n);
    ResidueB0(x, sa * n, sa * (n % BASE), sb, n, r, t);
  }

  lemma ResidueB0(x: int, p: int, p': int, sb: int, n: int, r: int, t: int)
    requires x == sb + p + r - n && r % BASE == t % BASE && p % BASE == p' % BASE
    ensures x % BASE == (p' + sb + t - n % BASE) % BASE
  {
  }

  /** Running on from any reduced sums, in terms of a run from the start. */
  lemma RunFromA(s: Halves, y: bytes)
    requires y != []
    ensures Run(s, y).a == (s.a + Run(START, y).a - 1) % BASE
  {
    RunIsRaw(s, s, y);
    RunIsRaw(START, START, y);
    RawFrom(s, y);
    ResidueA(Raw(s, y).a, s.a, Raw(START, y).a, Run(START, y).a);
  }

  lemma RunFromB(s: Halves, y: bytes)
    requires y != []
    ensures var l := |y| % BASE;
            Run(s, y).b == (s.a * l + s.b + Run(START, y).b - l) % BASE
  {
    RunIsRaw(s, s, y);
    RunIsRaw(START, START, y);
    RawFrom(s, y);
    ResidueB(Raw(s, y).b, s.a, s.b, |y|, Raw(START, y).b, Run(START, y).b);
  }

  lemma RunFrom(s: Halves, y: bytes)
    requires s.a < BASE && s.b < BASE
    ensures var t, l := Run(START, y), |y| % BASE;
            Run(s, y) == Halves((s.a + t.a - 1) % BASE, (s.a * l + s.b + t.b - l) % BASE)
  {
    if y == [] {
      assert s.a * 0 == 0;
    } else {
      RunFromA(s, y);
      RunFromB(s, y);
    }
  }

  /** A subtraction that goes below zero in 32 bits comes out 225 too high modulo the base. */
  lemma WrapIsWrong(v: int)
    requires -BASE <= v < TWO32
    ensures (v % TWO32) % BASE == v % BASE <==> 0 <= v
  {
    if v < 0 {
      assert v % TWO32 == v + TWO32;
      assert TWO32 == 65551 * BASE + 225;
      ModMultiple(v + 225, 65551);
      assert (v + TWO32) % BASE == (v + 225) % BASE;
    }
  }

  lemma CatOperands(s1: Halves, s2: Halves, l: nat)
    requires s1.a < BASE && s1.b < BASE && s2.a < BASE && s2.b < BASE && l < BASE
    ensures -BASE <= s1.a * l + s1.b + s2.b - l < TWO32
    ensures s1.a != 0 ==> 0 <= s1.a * l + s1.b + s2.b - l
  {
    MulMono(s1.a, BASE - 1, l, BASE - 1);
    if s1.a != 0 {
      MulMono(1, s1.a, l, l);
    }
  }

  lemma CatHalves(sum1: u32, sum2: u32, n: nat, u: int, v: int)
    requires u == Unpack(sum1).a + Unpack(sum2).a - 1
    requires v == Unpack(sum1).a * (n % BASE) + Unpack(sum1).b + Unpack(sum2).b - n % BASE
    ensures Unpack(Cat(sum1, sum2, n)) == Halves((u % TWO32) % BASE, (v % TWO32) % BASE)
  {
    UnpackPack(Halves((u % TWO32) % BASE, (v % TWO32) % BASE));
  }

  lemma CatGuard(s1: Halves, s2: Halves, l: nat, u: int, v: int)
    requires s1.a < BASE && s1.b < BASE && s2.a < BASE && s2.b < BASE && l < BASE
    requires u == s1.a + s2.a - 1 && v == s1.a * l + s1.b + s2.b - l
    ensures -BASE <= u < TWO32 && -BASE <= v < TWO32
    ensures s1.a != 0 || (s2.a != 0 && s1.b + s2.b >= l) <==> 0 <= u && 0 <= v
  {
    CatOperands(s1, s2, l);
    if s1.a == 0 {
      assert s1.a * l == 0;
    }
  }

  /** Composition is exact when neither subtraction wraps, and only then. The caller can check
      the guard beforehand; a first block whose low half is not zero always meets it. */
  lemma CatIsExact(x: bytes, y: bytes)
    ensures Cat(Of(x), Of(y), |y|) == Of(x + y) <==> NoWrap(Of(x), Of(y), |y|)
    ensures Of(x) % TWO16 != 0 ==> Cat(Of(x), Of(y), |y|) == Of(x + y)
  {
    var s1, s2, l := Run(START, x), Run(START, y), |y| % BASE;
    var u, v := s1.a + s2.a - 1, s1.a * l + s1.b + s2.b - l;
    OfHalves(x);
    OfHalves(y);
    OfHalves(x + y);
    RunConcat(START, x, y);
    RunFrom(s1, y);
    CatHalves(Of(x), Of(y), |y|, u, v);
    CatGuard(s1, s2, l, u, v);
    CatCases(Unpack(Cat(Of(x), Of(y), |y|)), Unpack(Of(x + y)), u, v);
    SamePacked(Cat(Of(x), Of(y), |y|), Of(x + y));
  }

  lemma CatCases(h: Halves, r: Halves, u: int, v: int)
    requires -BASE <= u < TWO32 && -BASE <= v < TWO32
    requires h == Halves((u % TWO32) % BASE, (v % TWO32) % BASE) && r == Halves(u % BASE, v % BASE)
    ensures h == r <==> 0 <= u && 0 <= v
  {
    WrapIsWrong(u);
    WrapIsWrong(v);
  }

  lemma SamePacked(w: u32, w': u32)
    ensures w == w' <==> Unpack(w) == Unpack(w')
  {
  }

  /** Continuing a checksum from `init` is the same as checksumming the whole. */
  lemma SumContinues(x: bytes, y: bytes)
    ensures Sum(y, Of(x)) == Of(x + y)
  {
    OfHalves(x);
    RunConcat(START, x, y);
  }

  function Ones(n: nat): (d: bytes)
    ensures |d| == n
  {
    if n == 0 then [] else Ones(n - 1) + [255]
  }

  lemma {:induction false} RawOnes(n: nat)
    ensures Raw(START, Ones(n)).a == 1 + 255 * n
  {
    if n != 0 {
      assert Ones(n)[..n - 1] == Ones(n - 1);
      RawOnes(n - 1);
    }
  }

  /** 256 bytes of 255 and one of 240: their low half is zero, and composing the checksum of
      this block with itself gives a wrong result. */
  const ZERO_LOW: bytes := Ones(256) + [240]

  lemma ZeroLow()
    ensures Raw(START, ZERO_LOW).a == BASE
  {
    RawOnes(256);
    assert ZERO_LOW[..|ZERO_LOW| - 1] == Ones(256);
  }

  /** The low half of a checksum from the unreduced sums. */
  lemma LowOf(d: bytes)
    requires d != []
    ensures Of(d) % TWO16 == Raw(START, d).a % BASE
  {
    OfHalves(d);
    RunIsRaw(START, START, d);
  }

  lemma CatCanWrap()
    ensures Cat(Of(ZERO_LOW), Of(ZERO_LOW), |ZERO_LOW|) != Of(ZERO_LOW + ZERO_LOW)
  {
    ZeroLow();
    LowOf(ZERO_LOW);
    CatIsExact(ZERO_LOW, ZERO_LOW);
  }
}
