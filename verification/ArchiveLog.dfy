/** The archive file: a log of chunks with headers, and the index built by scanning it. */
module ArchiveLog {
  import opened Bytes
  import opened Xdr
  import opened OpaqueMeta

  const CHUNKSIG: nat := 0x5658_4163
  const ARCHSIG: u32 := 0x5658_4168
  const HDRSIZE: nat := 16
  const HEADER: seq<nat> := [4, 4, 8]

  function CheckOf(c: Crypto, d: bytes): u64 { c.check(c.sha512(d)) }

  /** Chunks are not empty, and size and header together fit the 32-bit sum `scan` makes. */
  predicate Writable(d: bytes) { 0 < |d| && HDRSIZE + |d| < TWO31 }

  function PutHeader(c: Crypto, d: bytes): (s: bytes)
    ensures |s| == HDRSIZE
  {
    HeaderSize();
    PutWords([CHUNKSIG, Wrap(|d|, TWO32), CheckOf(c, d)], HEADER)
  }

  lemma HeaderSize()
    ensures Sum(HEADER) == HDRSIZE
  {
    assert HEADER[1..] == [4, 8] && [4, 8][1..] == [8] && [8][1..] == [];
    assert Sum([8]) == 8 + 0 && Sum([4, 8]) == 4 + 8;
  }

  datatype Head = Head(check: u64, size: int)

  /** `readHeader`. */
  function ReadHeader(file: bytes, pos: nat): Option<Head> {
    if pos + HDRSIZE > |file| then None else
      match GetWords(file[pos..pos + HDRSIZE], HEADER)
      case Bad => None
      case Got(ws, _) =>
        WordSizes();
        var size := Unwrap(ws[1], TWO32);
        if ws[0] != CHUNKSIG || size <= 0 then None else Some(Head(ws[2], size))
  }

  lemma HeaderRoundTrip(c: Crypto, d: bytes, file: bytes, pos: nat)
    requires Writable(d) && pos + HDRSIZE <= |file| && file[pos..pos + HDRSIZE] == PutHeader(c, d)
    ensures ReadHeader(file, pos) == Some(Head(CheckOf(c, d), |d|))
  {
    var ws := [CHUNKSIG, Wrap(|d|, TWO32), CheckOf(c, d)];
    WordSizes();
    WordsRoundTrip(ws, HEADER, []);
    assert PutWords(ws, HEADER) + [] == PutHeader(c, d);
    WrapRoundTrip(|d|, TWO32);
  }

  // ----- the log -----

  ghost predicate AllWritable(ds: seq<bytes>) { forall i :: 0 <= i < |ds| ==> Writable(ds[i]) }

  function PutChunk(c: Crypto, d: bytes): bytes { PutHeader(c, d) + d }

  function Log(c: Crypto, ds: seq<bytes>): bytes {
    if ds == [] then [] else Log(c, ds[..|ds| - 1]) + PutChunk(c, ds[|ds| - 1])
  }

  /** Where the `i`-th chunk begins. */
  function Pos(ds: seq<bytes>, i: nat): nat
    requires i <= |ds|
  {
    if i == 0 then 0 else Pos(ds, i - 1) + HDRSIZE + |ds[i - 1]|
  }

  /** The file fits its 64-bit positions, and the chunks their 32-bit numbers. */
  ghost predicate Addressable(ds: seq<bytes>) { Pos(ds, |ds|) < TWO63 && |ds| < TWO31 }

  lemma {:induction false} PosPrefix(ds: seq<bytes>, es: seq<bytes>, i: nat)
    requires i <= |ds| && ds <= es
    ensures Pos(ds, i) == Pos(es, i)
  {
    if i > 0 {
      PosPrefix(ds, es, i - 1);
    }
  }

  lemma {:induction false} LogLength(c: Crypto, ds: seq<bytes>)
    ensures |Log(c, ds)| == Pos(ds, |ds|)
  {
    if ds != [] {
      LogLength(c, ds[..|ds| - 1]);
      PosPrefix(ds[..|ds| - 1], ds, |ds| - 1);
    }
  }

  lemma SliceBack(x: bytes, y: bytes)
    ensures (x + y)[|x|..|x| + |y|] == y
  {
  }

  lemma SliceFront(x: bytes, y: bytes, a: nat, b: nat)
    requires a <= b <= |x|
    ensures (x + y)[a..b] == x[a..b]
  {
  }

  /** In the log of `ds` chunk `i` lies at its position. */
  lemma {:induction false} LogAt(c: Crypto, ds: seq<bytes>, i: nat)
    requires i < |ds|
    ensures Pos(ds, i) + HDRSIZE <= Pos(ds, i + 1) <= |Log(c, ds)|
    ensures Log(c, ds)[Pos(ds, i)..Pos(ds, i + 1)] == PutChunk(c, ds[i])
  {
    var n := |ds| - 1;
    var before := Log(c, ds[..n]);
    LogLength(c, ds[..n]);
    if i == n {
      PosPrefix(ds[..n], ds, n);
      SliceBack(before, PutChunk(c, ds[n]));
    } else {
      LogAt(c, ds[..n], i);
      PosPrefix(ds[..n], ds, i);
      PosPrefix(ds[..n], ds, i + 1);
      SliceFront(before, PutChunk(c, ds[n]), Pos(ds, i), Pos(ds, i + 1));
    }
  }

  lemma ChunkAt(c: Crypto, ds: seq<bytes>, i: nat)
    requires i < |ds| && AllWritable(ds)
    ensures ReadHeader(Log(c, ds), Pos(ds, i)) == Some(Head(CheckOf(c, ds[i]), |ds[i]|))
    ensures Pos(ds, i) + HDRSIZE + |ds[i]| <= |Log(c, ds)|
    ensures Log(c, ds)[Pos(ds, i) + HDRSIZE..Pos(ds, i) + HDRSIZE + |ds[i]|] == ds[i]
  {
    LogAt(c, ds, i);
    SplitPart(Log(c, ds), Pos(ds, i), PutHeader(c, ds[i]), ds[i]);
    HeaderRoundTrip(c, ds[i], Log(c, ds), Pos(ds, i));
  }

  lemma SplitPart(file: bytes, p: nat, h: bytes, d: bytes)
    requires p + |h| + |d| <= |file| && file[p..p + |h| + |d|] == h + d
    ensures file[p..p + |h|] == h && file[p + |h|..p + |h| + |d|] == d
  {
    var part := file[p..p + |h| + |d|];
    assert file[p..p + |h|] == part[..|h|];
    assert file[p + |h|..p + |h| + |d|] == part[|h|..];
  }

  // ----- the index -----

  /** Positions of the chunks, and for every check the numbers of the chunks that have it, newest
      first. */
  datatype Index = Index(chunks: seq<nat>, chash: seq<(u64, nat)>)

  function AddToIndex(x: Index, pos: nat, check: u64): Index {
    Index(x.chunks + [pos], [(check, |x.chunks|)] + x.chash)
  }

  /** The loop of `scan`, from some position on. */
  function ScanFrom(file: bytes, pos: nat, x: Index): Option<Index>
    decreases |file| - pos
  {
    if pos >= |file| then Some(x) else
      match ReadHeader(file, pos)
      case None => None
      case Some(h) => ScanFrom(file, pos + HDRSIZE + h.size, AddToIndex(x, pos, h.check))
  }

  function FreshScan(file: bytes): Option<Index> { ScanFrom(file, 0, Index([], [])) }

  /** The index of the first `k` chunks. */
  function IndexOf(c: Crypto, ds: seq<bytes>, k: nat): (x: Index)
    requires k <= |ds|
    ensures |x.chunks| == |x.chash| == k
  {
    if k == 0 then Index([], []) else AddToIndex(IndexOf(c, ds, k - 1), Pos(ds, k - 1), CheckOf(c, ds[k - 1]))
  }

  /** A scan, fresh or resumed, gives the index of the whole log. */
  lemma {:induction false} ScanIsIndex(c: Crypto, ds: seq<bytes>, k: nat)
    requires k <= |ds| && AllWritable(ds)
    ensures ScanFrom(Log(c, ds), Pos(ds, k), IndexOf(c, ds, k)) == Some(IndexOf(c, ds, |ds|))
    decreases |ds| - k
  {
    LogLength(c, ds);
    if k < |ds| {
      ScanStep(c, ds, k, IndexOf(c, ds, k));
      ScanIsIndex(c, ds, k + 1);
    }
  }

  lemma ScanStep(c: Crypto, ds: seq<bytes>, k: nat, x: Index)
    requires k < |ds| && AllWritable(ds)
    ensures ScanFrom(Log(c, ds), Pos(ds, k), x) ==
            ScanFrom(Log(c, ds), Pos(ds, k + 1), AddToIndex(x, Pos(ds, k), CheckOf(c, ds[k])))
  {
    ChunkAt(c, ds, k);
  }

  lemma {:induction false} IndexPrefix(c: Crypto, ds: seq<bytes>, es: seq<bytes>, k: nat)
    requires k <= |ds| && ds <= es
    ensures IndexOf(c, ds, k) == IndexOf(c, es, k)
  {
    if k > 0 {
      IndexPrefix(c, ds, es, k - 1);
      PosPrefix(ds, es, k - 1);
    }
  }

  lemma {:induction false} IndexAt(c: Crypto, ds: seq<bytes>, k: nat, i: nat)
    requires i < k <= |ds|
    ensures IndexOf(c, ds, k).chunks[i] == Pos(ds, i)
    ensures IndexOf(c, ds, k).chash[k - 1 - i] == (CheckOf(c, ds[i]), i)
    decreases k
  {
    if i < k - 1 {
      IndexAt(c, ds, k - 1, i);
    }
  }

  /** The chunk has this check and this size; zero stands for no expectation. */
  predicate AsExpected(c: Crypto, d: bytes, expcheck: u64, expsize: int) {
    (expsize == 0 || expsize == |d|) && (expcheck == 0 || expcheck == CheckOf(c, d))
  }

  /** The chunk has this hash and, unless zero is given, this size. */
  predicate Matches(c: Crypto, d: bytes, h: OuterHash, expsize: int) {
    c.sha512(d) == h && (expsize == 0 || expsize == |d|)
  }

  ghost predicate Known(c: Crypto, ds: seq<bytes>, k: nat, h: OuterHash, expsize: int)
    requires k <= |ds|
  {
    exists i :: 0 <= i < k && Matches(c, ds[i], h, expsize)
  }

  /** The hash function does not collide on the chunks of the log. */
  ghost predicate NoCollision(c: Crypto, ds: seq<bytes>) {
    forall i, j :: 0 <= i < |ds| && 0 <= j < |ds| && c.sha512(ds[i]) == c.sha512(ds[j]) ==> ds[i] == ds[j]
  }

  /** No two chunks of the log have the same hash and size. */
  ghost predicate StoredOnce(c: Crypto, ds: seq<bytes>) {
    forall i, j :: 0 <= i < j < |ds| ==> !Matches(c, ds[i], c.sha512(ds[j]), |ds[j]|)
  }

  lemma OnceMore(c: Crypto, ds: seq<bytes>, d: bytes)
    requires !Known(c, ds, |ds|, c.sha512(d), |d|)
    ensures Known(c, ds + [d], |ds| + 1, c.sha512(d), |d|)
    ensures StoredOnce(c, ds) ==> StoredOnce(c, ds + [d])
  {
    assert (ds + [d])[|ds|] == d;
  }

  // ----- runs of writes -----

  /** The log after one write: a chunk with a known hash and size is not written again. */
  ghost function AfterWrite(c: Crypto, ds: seq<bytes>, d: bytes): seq<bytes> {
    if Known(c, ds, |ds|, c.sha512(d), |d|) then ds else ds + [d]
  }

  ghost function AfterWrites(c: Crypto, ds: seq<bytes>, written: seq<bytes>): seq<bytes> {
    if written == [] then ds
    else AfterWrite(c, AfterWrites(c, ds, written[..|written| - 1]), written[|written| - 1])
  }

  lemma KnownStays(c: Crypto, ds: seq<bytes>, d: bytes, h: OuterHash, expsize: int)
    requires Known(c, ds, |ds|, h, expsize)
    ensures Known(c, AfterWrite(c, ds, d), |AfterWrite(c, ds, d)|, h, expsize)
  {
    var es := AfterWrite(c, ds, d);
    var i :| 0 <= i < |ds| && Matches(c, ds[i], h, expsize);
    assert es[i] == ds[i];
  }

  /** After any writes each of them is known, and no hash and size is stored twice. */
  lemma {:induction false} WritesAreKnown(c: Crypto, ds: seq<bytes>, written: seq<bytes>, k: nat)
    requires StoredOnce(c, ds) && k <= |written|
    ensures var es := AfterWrites(c, ds, written);
            StoredOnce(c, es) && (k < |written| ==> Known(c, es, |es|, c.sha512(written[k]), |written[k]|))
  {
    if written != [] {
      var n := |written| - 1;
      var es := AfterWrites(c, ds, written[..n]);
      WritesAreKnown(c, ds, written[..n], if k < n then k else 0);
      if !Known(c, es, |es|, c.sha512(written[n]), |written[n]|) {
        OnceMore(c, es, written[n]);
      }
      if k < n {
        KnownStays(c, es, written[n], c.sha512(written[k]), |written[k]|);
      }
    }
  }

  /** Nothing else gets into the log. */
  lemma {:induction false} WritesAddNothingElse(c: Crypto, ds: seq<bytes>, written: seq<bytes>)
    ensures forall d :: d in AfterWrites(c, ds, written) ==> d in ds || d in written
  {
    if written != [] {
      WritesAddNothingElse(c, ds, written[..|written| - 1]);
    }
  }

  /** The chunk lies in the log at exactly one place. */
  ghost predicate OnceIn(ds: seq<bytes>, d: bytes) {
    exists i :: 0 <= i < |ds| && ds[i] == d && forall j :: 0 <= j < |ds| && ds[j] == d ==> j == i
  }

  lemma PlaceOf(ds: seq<bytes>, d: bytes) returns (i: nat)
    requires OnceIn(ds, d)
    ensures i < |ds| && ds[i] == d
  {
    i :| 0 <= i < |ds| && ds[i] == d && forall j :: 0 <= j < |ds| && ds[j] == d ==> j == i;
  }

  lemma NoCollisionWithin(c: Crypto, ds: seq<bytes>, es: seq<bytes>)
    requires NoCollision(c, ds) && forall d :: d in es ==> d in ds
    ensures NoCollision(c, es)
  {
    forall i, j | 0 <= i < |es| && 0 <= j < |es| && c.sha512(es[i]) == c.sha512(es[j]) ensures es[i] == es[j] {
      assert es[i] in ds && es[j] in ds;
    }
  }

  /** Over any run of writes, without collisions of the full hash, every chunk written is in the
      log exactly once, however often it was written and whatever 64-bit checks collide. */
  lemma WritesStoredOnce(c: Crypto, ds: seq<bytes>, written: seq<bytes>, k: nat)
    requires StoredOnce(c, ds) && NoCollision(c, ds + written) && k < |written|
    ensures NoCollision(c, AfterWrites(c, ds, written)) && OnceIn(AfterWrites(c, ds, written), written[k])
  {
    var es, d := AfterWrites(c, ds, written), written[k];
    WritesAreKnown(c, ds, written, k);
    WritesAddNothingElse(c, ds, written);
    NoCollisionWithin(c, ds + written, es);
    var i :| 0 <= i < |es| && Matches(c, es[i], c.sha512(d), |d|);
    assert es[i] in ds + written && d in ds + written;
    assert es[i] == d;
    forall j | 0 <= j < |es| && j != i ensures es[j] != d {
      TwoDiffer(c, es, if i < j then i else j, if i < j then j else i);
    }
  }

  ghost predicate AllOnceIn(ds: seq<bytes>, written: seq<bytes>) {
    forall k :: 0 <= k < |written| ==> OnceIn(ds, written[k])
  }

  lemma AllWritesStoredOnce(c: Crypto, ds: seq<bytes>, written: seq<bytes>)
    requires StoredOnce(c, ds) && NoCollision(c, ds + written)
    ensures var es := AfterWrites(c, ds, written);
            StoredOnce(c, es) && NoCollision(c, es) && AllOnceIn(es, written)
  {
    WritesAreKnown(c, ds, written, |written|);
    WritesAddNothingElse(c, ds, written);
    NoCollisionWithin(c, ds + written, AfterWrites(c, ds, written));
    forall k | 0 <= k < |written| ensures OnceIn(AfterWrites(c, ds, written), written[k]) {
      WritesStoredOnce(c, ds, written, k);
    }
  }

  lemma TwoDiffer(c: Crypto, ds: seq<bytes>, i: nat, j: nat)
    requires StoredOnce(c, ds) && i < j < |ds|
    ensures ds[i] != ds[j]
  {
    assert !Matches(c, ds[i], c.sha512(ds[j]), |ds[j]|);
  }

  lemma {:induction false} PosSnoc(ds: seq<bytes>, d: bytes)
    ensures Pos(ds + [d], |ds| + 1) == Pos(ds, |ds|) + HDRSIZE + |d|
  {
    PosPrefix(ds, ds + [d], |ds|);
  }

  /** The log never takes more room than if every write were appended. */
  lemma {:induction false} WritesTakeRoom(c: Crypto, ds: seq<bytes>, written: seq<bytes>)
    ensures Pos(AfterWrites(c, ds, written), |AfterWrites(c, ds, written)|) <=
            Pos(ds + written, |ds| + |written|)
    ensures |AfterWrites(c, ds, written)| <= |ds| + |written|
  {
    if written == [] {
      assert ds + written == ds;
    } else {
      var n := |written| - 1;
      WritesTakeRoom(c, ds, written[..n]);
      PosSnoc(AfterWrites(c, ds, written[..n]), written[n]);
      PosSnoc(ds + written[..n], written[n]);
      assert ds + written == (ds + written[..n]) + [written[n]];
    }
  }

  lemma {:induction false} PosGrows(ds: seq<bytes>, i: nat, j: nat)
    requires i <= j <= |ds|
    ensures Pos(ds, i) <= Pos(ds, j)
    decreases j
  {
    if i < j {
      PosGrows(ds, i, j - 1);
    }
  }

  /** If all writes could be appended, there is room for each in turn. */
  lemma RoomForNext(c: Crypto, ds: seq<bytes>, written: seq<bytes>, k: nat)
    requires Addressable(ds + written) && k < |written|
    ensures Addressable(AfterWrites(c, ds, written[..k]) + [written[k]])
  {
    var all := ds + written;
    WritesTakeRoom(c, ds, written[..k]);
    PosSnoc(AfterWrites(c, ds, written[..k]), written[k]);
    PosSnoc(ds + written[..k], written[k]);
    assert (ds + written[..k]) + [written[k]] <= all;
    PosPrefix((ds + written[..k]) + [written[k]], all, |ds| + k + 1);
    PosGrows(all, |ds| + k + 1, |all|);
  }
}
