/** A checksum that can be rolled through a buffer one byte at a time, and the choice of a
    split point by its lowest value. */
module Rolling {
  import opened Bytes
  import opened Selection

  // ----- the sums recomputed from scratch -----

  datatype Sums = Sums(a: u32, b: u32)

  /** Addition of unsigned 32-bit words. */
  function Add32(x: u32, y: u32): u32 { if x + y < TWO32 then x + y else x + y - TWO32 }

  function AddByte(s: Sums, x: byte): Sums {
    var a := Add32(s.a, x);
    Sums(a, Add32(s.b, a))
  }

  /** The 32-bit sums of the slab [i, j), started afresh. */
  function Fresh(d: bytes, i: nat, j: nat): Sums
    requires i <= j <= |d|
  {
    if i == j then Sums(0, 0) else AddByte(Fresh(d, i, j - 1), d[j - 1])
  }

  /** The low 16 bits of a word. */
  function Low16(x: nat): (r: nat)
    ensures r < TWO16
  {
    if x < TWO16 then x else Low16(x - TWO16)
  }

  lemma {:induction false} Low16IsMod(x: nat)
    ensures Low16(x) == x % TWO16
  {
    if x >= TWO16 {
      Low16IsMod(x - TWO16);
    }
  }

  function Low(s: Sums): u32 { Low16(s.b) * TWO16 + Low16(s.a) }

  /** The checksum of the slab [i, j): the low 16 bits of each sum. */
  function Slab(d: bytes, i: nat, j: nat): u32
    requires i <= j <= |d|
  {
    Low(Fresh(d, i, j))
  }

  // ----- the same sums in unbounded arithmetic -----

  function SumA(d: bytes, i: nat, j: nat): nat
    requires i <= j <= |d|
  {
    if i == j then 0 else SumA(d, i, j - 1) + d[j - 1]
  }

  function SumB(d: bytes, i: nat, j: nat): nat
    requires i <= j <= |d|
  {
    if i == j then 0 else SumB(d, i, j - 1) + SumA(d, i, j)
  }

  lemma AddMod(x: int, y: int)
    ensures (x % TWO32 + y) % TWO32 == (x + y) % TWO32
  {
  }

  lemma AddMods(x: int, y: int)
    ensures (x % TWO32 + y % TWO32) % TWO32 == (x + y) % TWO32
  {
  }

  lemma Add32Mod(w: u32, x: nat, v: u32, y: nat)
    requires w == x % TWO32 && v == y % TWO32
    ensures Add32(w, v) == (x + y) % TWO32
  {
  }

  lemma AddByteIsSums(s: Sums, x: nat, y: nat, v: byte)
    requires s == Sums(x % TWO32, y % TWO32)
    ensures AddByte(s, v) == Sums((x + v) % TWO32, (y + (x + v)) % TWO32)
  {
    Add32Mod(s.a, x, v, v);
    Add32Mod(s.b, y, Add32(s.a, v), x + v);
  }

  lemma {:induction false} FreshIsSums(d: bytes, i: nat, j: nat)
    requires i <= j <= |d|
    ensures Fresh(d, i, j) == Sums(SumA(d, i, j) % TWO32, SumB(d, i, j) % TWO32)
  {
    if i < j {
      FreshIsSums(d, i, j - 1);
      AddByteIsSums(Fresh(d, i, j - 1), SumA(d, i, j - 1), SumB(d, i, j - 1), d[j - 1]);
    }
  }

  /** The value of a slab: the low 16 bits of the weighted sum, then those of the plain one. */
  lemma SlabIsSums(d: bytes, i: nat, j: nat)
    requires i <= j <= |d|
    ensures Slab(d, i, j) == SumB(d, i, j) % 0x1_0000 * 0x1_0000 + SumA(d, i, j) % 0x1_0000
  {
    FreshIsSums(d, i, j);
    Low16IsMod(Fresh(d, i, j).a);
    Low16IsMod(Fresh(d, i, j).b);
    LowOfMod(SumA(d, i, j));
    LowOfMod(SumB(d, i, j));
  }

  lemma LowOfMod(x: nat)
    ensures x % TWO32 % TWO16 == x % 0x1_0000
  {
    var q := x / TWO32;
    assert x == q * TWO32 + x % TWO32 && q * TWO32 == (q * TWO16) * TWO16;
  }

  /** What the slab loses when it gives up its first byte. */
  lemma {:induction false} DropFirst(d: bytes, i: nat, j: nat)
    requires i < j <= |d|
    ensures SumA(d, i, j) == d[i] + SumA(d, i + 1, j)
    ensures SumB(d, i, j) == (j - i) * d[i] + SumB(d, i + 1, j)
  {
    if i + 1 < j {
      DropFirst(d, i, j - 1);
      assert (j - i) * d[i] == (j - 1 - i) * d[i] + d[i];
    }
  }

  /** `advance` on the two sums, in unsigned 32-bit arithmetic. */
  function Roll(s: Sums, lost: nat, first: byte, next: byte): Sums {
    var a: u32 := (s.a - first + next) % TWO32;
    Sums(a, (s.b - lost + a) % TWO32)
  }

  lemma RollMod(s: Sums, x: int, y: int, lost: nat, first: byte, next: byte, x': int, y': int)
    requires s == Sums(x % TWO32, y % TWO32)
    requires x' == x - first + next && y' == y - lost + x'
    ensures Roll(s, lost, first, next) == Sums(x' % TWO32, y' % TWO32)
  {
    RollModB(s.b, y, lost, x', y');
    assert (s.a - first + next) % TWO32 == x' % TWO32;
  }

  lemma RollModB(b: u32, y: int, lost: int, x': int, y': int)
    requires b == y % TWO32 && y' == y - lost + x'
    ensures (b - lost + x' % TWO32) % TWO32 == y' % TWO32
  {
    AddMod(y, -lost);
    AddMods(y - lost, x');
    AddMod(b - lost, x' % TWO32);
  }

  /** Rolling the sums of one slab gives the sums of the next, computed from scratch: the
      first byte of the slab counts once per byte of the slab in the second sum. */
  lemma RollIsFresh(d: bytes, i: nat, j: nat, lost: nat)
    requires i < j < |d| && lost == (j - i) * d[i]
    ensures Roll(Fresh(d, i, j), lost, d[i], d[j]) == Fresh(d, i + 1, j + 1)
  {
    DropFirst(d, i, j);
    FreshIsSums(d, i, j);
    FreshIsSums(d, i + 1, j + 1);
    RollMod(Fresh(d, i, j), SumA(d, i, j), SumB(d, i, j), lost, d[i], d[j],
            SumA(d, i + 1, j + 1), SumB(d, i + 1, j + 1));
  }

  // ----- selection -----

  /** The checksum of the `w` bytes before each of the first `n` candidate ends. */
  function SlabValues(d: bytes, w: nat, ends: seq<nat>, n: nat): (vals: seq<int>)
    requires n <= |ends| && forall k :: 0 <= k < |ends| ==> w <= ends[k] <= |d|
    ensures |vals| == n
  {
    if n == 0 then [] else
      SlabValues(d, w, ends, n - 1) + [Slab(d, ends[n - 1] - w, ends[n - 1])]
  }

  lemma {:induction false} SlabValueAt(d: bytes, w: nat, ends: seq<nat>, n: nat, k: nat)
    requires k < n <= |ends| && forall k :: 0 <= k < |ends| ==> w <= ends[k] <= |d|
    ensures SlabValues(d, w, ends, n)[k] == Slab(d, ends[k] - w, ends[k])
  {
    if k < n - 1 {
      SlabValueAt(d, w, ends, n - 1, k);
    }
  }

  /** The candidate whose last `w` bytes have the lowest checksum; the last of several. */
  function Best(d: bytes, w: nat, ends: seq<nat>): (k: nat)
    requires ends != [] && forall k :: 0 <= k < |ends| ==> w <= ends[k] <= |d|
    ensures k < |ends|
  {
    LastMin(SlabValues(d, w, ends, |ends|), |ends|)
  }

  lemma BestIsLastLowest(d: bytes, w: nat, ends: seq<nat>, i: nat)
    requires i < |ends| && forall k :: 0 <= k < |ends| ==> w <= ends[k] <= |d|
    ensures var k := Best(d, w, ends);
            Slab(d, ends[k] - w, ends[k]) <= Slab(d, ends[i] - w, ends[i]) &&
            (k < i ==> Slab(d, ends[k] - w, ends[k]) < Slab(d, ends[i] - w, ends[i]))
  {
    var vals := SlabValues(d, w, ends, |ends|);
    LastMinIsLastMinimum(vals, |ends|);
    SlabValueAt(d, w, ends, |ends|, LastMin(vals, |ends|));
    SlabValueAt(d, w, ends, |ends|, i);
  }

  /** Every end from `lo` to `hi`, in order. */
  function Ends(lo: nat, hi: nat): (s: seq<nat>)
    requires lo <= hi
    ensures |s| == hi - lo + 1
    ensures forall k :: 0 <= k < |s| ==> s[k] == lo + k
  {
    seq(hi - lo + 1, k requires 0 <= k => lo + k)
  }

  /** The size `ScanChunk` selects. */
  function Scanned(d: bytes, minsize: nat, maxsize: nat): (size: nat)
    requires minsize <= maxsize <= |d|
    ensures minsize <= size <= maxsize
  {
    minsize + Best(d, minsize, Ends(minsize, maxsize))
  }

  /** The selected size is the largest one whose last `minsize` bytes have the lowest sum. */
  lemma ScannedIsLargestLowest(d: bytes, minsize: nat, maxsize: nat, end: nat)
    requires minsize <= end <= maxsize <= |d|
    ensures var size := Scanned(d, minsize, maxsize);
            Slab(d, size - minsize, size) <= Slab(d, end - minsize, end) &&
            (size < end ==> Slab(d, size - minsize, size) < Slab(d, end - minsize, end))
  {
    BestIsLastLowest(d, minsize, Ends(minsize, maxsize), end - minsize);
    assert Ends(minsize, maxsize)[end - minsize] == end;
  }

  class RollingChecksum {
    const buf: bytes
    var i: nat
    var j: nat
    var a: u32
    var b: u32

    ghost predicate Valid()
      reads this
    {
      i < j <= |buf| && Sums(a, b) == Fresh(buf, i, j)
    }

    constructor (buffer: bytes, slabstart: nat, slabend: nat)
      requires slabstart < slabend <= |buffer|
      ensures Valid() && buf == buffer && i == slabstart && j == slabend
    {
      buf := buffer;
      i := slabstart;
      j := slabstart;
      a := 0;
      b := 0;
      new;
      while j < slabend
        invariant slabstart == i <= j <= slabend
        invariant Sums(a, b) == Fresh(buf, i, j)
      {
        a := Add32(a, buf[j]);
        b := Add32(b, a);
        j := j + 1;
      }
    }

    /** Rolls the slab one byte forward: afterwards the sums are those of the new slab. */
    method Advance()
      requires Valid() && j < |buf|
      modifies this
      ensures Valid() && i == old(i) + 1 && j == old(j) + 1
    {
      var lost: int := (j - i) * buf[i];
      RollIsFresh(buf, i, j, lost);
      var rolled := Roll(Sums(a, b), lost, buf[i], buf[j]);
      a := rolled.a;
      b := rolled.b;
      i := i + 1;
      j := j + 1;
    }

    /** Rolls forward until the slab ends at `newEnd`. */
    method AdvanceEnd(newEnd: nat)
      requires Valid() && newEnd <= |buf|
      modifies this
      ensures Valid() && j - i == old(j - i) && j == if old(j) < newEnd then newEnd else old(j)
    {
      while j < newEnd
        invariant Valid() && j - i == old(j - i)
        invariant j == old(j) || j <= newEnd
      {
        Advance();
      }
    }

    /** The rolled value is the value of the slab computed from scratch. */
    method Sum() returns (s: u32)
      requires Valid()
      ensures s == Slab(buf, i, j)
    {
      Low16IsMod(a);
      Low16IsMod(b);
      s := (b % TWO16) * TWO16 + a % TWO16;
    }
  }

  method ScanChunk(data: bytes, minsize: nat, maxsize: nat) returns (selsize: nat)
    requires 0 < minsize <= maxsize <= |data|
    ensures selsize == Scanned(data, minsize, maxsize)
  {
    ghost var ends := Ends(minsize, maxsize);
    ghost var vals := SlabValues(data, minsize, ends, |ends|);
    ghost var n := 1;
    var rc := new RollingChecksum(data, 0, minsize);
    var selsum := rc.Sum();
    selsize := minsize;
    SlabValueAt(data, minsize, ends, |ends|, 0);
    while rc.j < maxsize
      invariant rc.Valid() && rc.buf == data && rc.i == n - 1 && rc.j == minsize + n - 1
      invariant 1 <= n <= |vals|
      invariant selsize == minsize + LastMin(vals, n)
      invariant selsum == vals[LastMin(vals, n)]
    {
      rc.Advance();
      var newsum := rc.Sum();
      SlabValueAt(data, minsize, ends, |ends|, n);
      LastMinStep(vals, n, selsize - minsize, selsum);
      n := n + 1;
      if newsum <= selsum {
        selsum := newsum;
        selsize := rc.j;
      }
    }
  }
}
