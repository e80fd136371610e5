/** Reads by record number: when they deliver the records asked for. */
module RecordReads {
  import opened Bytes
  import opened OpaqueMeta
  import opened KeyTree
  import opened Build
  import opened Chunker
  import opened ChunkerRuns
  import opened Alignment
  import opened RecordRuns
  import opened Coded
  import opened Reading
  import opened ReaderTable
  import opened Conservation
  import opened RoundTrip
  import Rolling
  import Xdr

  /** Where the records of a stream begin, and its end. */
  function RecordBounds(ops: seq<Op>): seq<nat> {
    Bounds([0] + MarkOffsets(ops, 0), |Written(ops)|)
  }

  ghost predicate CoversAll(gs: seq<Part>, lo: nat, hi: nat) {
    forall i: nat :: lo <= i < hi ==> Covered(gs, i)
  }

  function CutAt(ps: seq<Piece>, k: nat): nat
    requires k < |ps|
  {
    |Content(ps[..k])|
  }

  /** A chunk begins strictly between the two places. */
  ghost predicate CutInside(ps: seq<Piece>, lo: nat, hi: nat) {
    exists k :: 0 <= k < |ps| && lo < CutAt(ps, k) < hi
  }

  // ----- which chunks are asked for -----

  /** The record that byte `i` belongs to. */
  lemma {:induction false} RecordAt(bounds: seq<nat>, s: nat, e: nat, i: nat) returns (q: nat)
    requires s < e < |bounds| && bounds[s] <= i < bounds[e]
    ensures s <= q < e && bounds[q] <= i < bounds[q + 1]
    decreases e
  {
    q := e - 1;
    if i < bounds[e - 1] {
      q := RecordAt(bounds, s, e - 1, i);
    }
  }

  lemma Ordered(bounds: seq<nat>, i: nat, j: nat)
    requires Increasing(bounds) && i <= j < |bounds|
    ensures bounds[i] <= bounds[j]
  {
    assert i < j ==> bounds[i] < bounds[j];
  }

  /** A chunk with bytes of the wanted records is asked for unless it begins inside the last one. */
  lemma PieceWanted(bounds: seq<nat>, end: nat, ofs: nat, p: Piece, first: nat, s: nat, e: nat, i: nat)
    requires Increasing(bounds) && bounds[|bounds| - 1] == end && s < e < |bounds|
    requires PieceAligned(bounds, end, ofs, p, first) && ofs <= i < ofs + |p.data|
    requires bounds[s] <= i < bounds[e]
    ensures Overlaps(Part(ofs, first, p.data, p.recs), Want(s, e, true)) <==> ofs <= bounds[e - 1]
  {
    var q := RecordAt(bounds, s, e, i);
    PieceHolds(bounds, end, ofs, p, first, q);
    if q + 1 < e {
      Ordered(bounds, q + 1, e - 1);
    }
  }

  lemma {:induction false} WantedMember(gs: seq<Part>, w: Want, g: Part)
    ensures g in Wanted(gs, w) <==> g in gs && Overlaps(g, w)
  {
    if gs != [] {
      WantedMember(gs[1..], w, g);
      assert g in gs <==> g == gs[0] || g in gs[1..];
    }
  }

  /** The data chunks of `ps`, laid end to end. */
  ghost predicate Laid(gs: seq<Part>, ps: seq<Piece>) {
    |gs| == |ps| &&
    forall k :: 0 <= k < |gs| ==> gs[k] == Part(CutAt(ps, k), Records(ps[..k]), ps[k].data, ps[k].recs)
  }

  lemma SpreadIsLaid(ps: seq<Piece>)
    ensures Laid(Spread(ps, 0, 0), ps)
  {
    SpreadLength(ps, 0, 0);
    forall k | 0 <= k < |ps|
      ensures Spread(ps, 0, 0)[k] == Part(CutAt(ps, k), Records(ps[..k]), ps[k].data, ps[k].recs)
    {
      SpreadTiles(ps, 0, 0, k);
    }
  }

  lemma PartAt(gs: seq<Part>, ps: seq<Piece>, bounds: seq<nat>, end: nat, s: nat, e: nat, k: nat, i: nat)
    requires Laid(gs, ps) && Finished(ps, bounds, end) && s < e < |bounds| && k < |gs|
    requires Covers(gs[k], i) && bounds[s] <= i < bounds[e]
    ensures gs[k] in Wanted(gs, Want(s, e, true)) <==> CutAt(ps, k) <= bounds[e - 1]
  {
    assert AlignedAt(bounds, end, ps, k);
    PieceWanted(bounds, end, CutAt(ps, k), ps[k], Records(ps[..k]), s, e, i);
    WantedMember(gs, Want(s, e, true), gs[k]);
  }

  lemma WithoutCut(gs: seq<Part>, ps: seq<Piece>, bounds: seq<nat>, end: nat, s: nat, e: nat, i: nat)
    requires Laid(gs, ps) && Finished(ps, bounds, end) && s < e < |bounds| && bounds[s] <= i < bounds[e]
    requires !CutInside(ps, bounds[e - 1], bounds[e])
    ensures Covered(Wanted(gs, Want(s, e, true)), i)
  {
    var ws := Wanted(gs, Want(s, e, true));
    Ordered(bounds, e, |bounds| - 1);
    var k := ChunkAround(ps, i);
    PartAt(gs, ps, bounds, end, s, e, k, i);
    var j :| 0 <= j < |ws| && ws[j] == gs[k];
    assert Covers(ws[j], i);
  }

  lemma LaidApart(gs: seq<Part>, ps: seq<Piece>, j: nat, k: nat)
    requires Laid(gs, ps) && j < k < |gs|
    ensures gs[j].ofs + |gs[j].data| <= gs[k].ofs
  {
    PrefixContent(ps[..k], j);
    assert ps[..k][..j] == ps[..j];
  }

  lemma OnlyOne(gs: seq<Part>, ps: seq<Piece>, k: nat, i: nat, g: Part)
    requires Laid(gs, ps) && k < |gs| && Covers(gs[k], i) && g in gs && g != gs[k]
    ensures !Covers(g, i)
  {
    var m :| 0 <= m < |gs| && gs[m] == g;
    if m < k {
      LaidApart(gs, ps, m, k);
    } else {
      LaidApart(gs, ps, k, m);
    }
  }

  lemma AtCut(gs: seq<Part>, ps: seq<Piece>, bounds: seq<nat>, end: nat, s: nat, e: nat, k: nat)
    requires Laid(gs, ps) && Finished(ps, bounds, end) && s < e < |bounds| && k < |gs|
    requires bounds[e - 1] < CutAt(ps, k) < bounds[e]
    ensures bounds[s] <= CutAt(ps, k) && !Covered(Wanted(gs, Want(s, e, true)), CutAt(ps, k))
  {
    var ws, i := Wanted(gs, Want(s, e, true)), CutAt(ps, k);
    Ordered(bounds, s, e - 1);
    assert PieceOk(ps[k]);
    PartAt(gs, ps, bounds, end, s, e, k, i);
    forall j | 0 <= j < |ws| ensures !Covers(ws[j], i) {
      WantedMember(gs, Want(s, e, true), ws[j]);
      OnlyOne(gs, ps, k, i, ws[j]);
    }
  }

  /** Reading records `s` to `e` asks for all their bytes exactly if no chunk begins inside the
      last one. */
  lemma WantedRecordsIff(gs: seq<Part>, ps: seq<Piece>, bounds: seq<nat>, end: nat, s: nat, e: nat)
    requires Laid(gs, ps) && Finished(ps, bounds, end) && s < e < |bounds|
    ensures CoversAll(Wanted(gs, Want(s, e, true)), bounds[s], bounds[e]) <==>
            !CutInside(ps, bounds[e - 1], bounds[e])
  {
    if CutInside(ps, bounds[e - 1], bounds[e]) {
      var k :| 0 <= k < |ps| && bounds[e - 1] < CutAt(ps, k) < bounds[e];
      AtCut(gs, ps, bounds, end, s, e, k);
    } else {
      forall i: nat | bounds[s] <= i < bounds[e] ensures Covered(Wanted(gs, Want(s, e, true)), i) {
        WithoutCut(gs, ps, bounds, end, s, e, i);
      }
    }
  }

  // ----- the length of the last record -----

  /** A chunk begins inside a record only if the record has the maximum chunk size. */
  lemma CutOnlyLong(ps: seq<Piece>, bounds: seq<nat>, end: nat, q: nat)
    requires Finished(ps, bounds, end) && q + 1 < |bounds| && CutInside(ps, bounds[q], bounds[q + 1])
    ensures RecordSize(bounds, end, q) >= MAX_CHUNK
  {
    var k :| 0 <= k < |ps| && bounds[q] < CutAt(ps, k) < bounds[q + 1];
    assert AlignedAt(bounds, end, ps, k) && PieceOk(ps[k]);
    PieceHolds(bounds, end, CutAt(ps, k), ps[k], Records(ps[..k]), q);
  }

  lemma {:induction false} ChunkAround(ps: seq<Piece>, x: nat) returns (k: nat)
    requires PiecesOk(ps) && x < |Content(ps)|
    ensures k < |ps| && CutAt(ps, k) <= x < CutAt(ps, k) + |ps[k].data|
    decreases |ps|
  {
    var n := |ps| - 1;
    PrefixContent(ps, n);
    assert ps[..n + 1] == ps;
    k := n;
    if x < CutAt(ps, n) {
      k := ChunkAround(ps[..n], x);
      assert ps[..n][..k] == ps[..k];
    }
  }

  /** A chunk begins inside every record that is longer. */
  lemma CutIfLonger(ps: seq<Piece>, bounds: seq<nat>, end: nat, q: nat)
    requires Finished(ps, bounds, end) && q + 1 < |bounds| && RecordSize(bounds, end, q) > MAX_CHUNK
    ensures CutInside(ps, bounds[q], bounds[q + 1])
  {
    Ordered(bounds, q + 1, |bounds| - 1);
    var k := ChunkAround(ps, bounds[q + 1] - 1);
    assert PieceOk(ps[k]);
    assert bounds[q] < CutAt(ps, k) < bounds[q + 1];
  }

  // ----- whole runs -----

  lemma RunFinished(ops: seq<Op>, limit: nat)
    requires ValidRun(ops, limit)
    ensures Finished(PiecesOf(ops, limit), RecordBounds(ops), |Written(ops)|)
  {
    EndFacts(ops, limit);
    FlushFinishes(EndState(ops, limit));
    assert Stream(START) == [];
    RunStarts(START, ops, 0);
  }

  lemma CoveredInAnyOrder(gs: seq<Part>, hs: seq<Part>, lo: nat, hi: nat)
    requires multiset(gs) == multiset(hs) && CoversAll(gs, lo, hi)
    ensures CoversAll(hs, lo, hi)
  {
    forall i: nat | lo <= i < hi ensures Covered(hs, i) {
      assert Covered(gs, i);
      var a :| 0 <= a < |gs| && Covers(gs[a], i);
      var k := IndexIn(hs, gs, a);
    }
  }

  lemma Delivers(gs: seq<Part>, ps: seq<Piece>, bounds: seq<nat>, end: nat, s: nat, e: nat, got: seq<Part>)
    requires Laid(gs, ps) && Finished(ps, bounds, end) && s < e < |bounds|
    requires multiset(got) == multiset(Wanted(gs, Want(s, e, true)))
    ensures CoversAll(got, bounds[s], bounds[e]) <==> !CutInside(ps, bounds[e - 1], bounds[e])
    ensures RecordSize(bounds, end, e - 1) < MAX_CHUNK ==> CoversAll(got, bounds[s], bounds[e])
    ensures RecordSize(bounds, end, e - 1) > MAX_CHUNK ==> !CoversAll(got, bounds[s], bounds[e])
  {
    var ws := Wanted(gs, Want(s, e, true));
    WantedRecordsIff(gs, ps, bounds, end, s, e);
    if CoversAll(got, bounds[s], bounds[e]) {
      CoveredInAnyOrder(got, ws, bounds[s], bounds[e]);
    }
    if CoversAll(ws, bounds[s], bounds[e]) {
      CoveredInAnyOrder(ws, got, bounds[s], bounds[e]);
    }
    if CutInside(ps, bounds[e - 1], bounds[e]) {
      CutOnlyLong(ps, bounds, end, e - 1);
    }
    if RecordSize(bounds, end, e - 1) > MAX_CHUNK {
      CutIfLonger(ps, bounds, end, e - 1);
    }
  }

  // ----- inline results -----

  /** A result without keys is one chunk. */
  lemma InlineIsOne(c: Crypto, ops: seq<Op>, limit: nat)
    requires ValidRun(ops, limit) && !InfoOf(c, ops, limit).Indirect?
    ensures |PiecesOf(ops, limit)| == 1 && |Written(ops)| < MAX_CHUNK
  {
    EndFacts(ops, limit);
    var s := EndState(ops, limit);
    assert s.pieces == [] && Content(s.pieces) == [];
  }

  lemma RebuiltCovers(got: seq<Part>, data: bytes, lo: nat, hi: nat)
    requires Rebuilds(got, data) && hi <= |data|
    ensures CoversAll(got, lo, hi)
  {
  }

  lemma OneHasNoCut(ps: seq<Piece>, lo: nat, hi: nat)
    requires |ps| == 1
    ensures !CutInside(ps, lo, hi)
  {
    assert Content(ps[..0]) == [];
  }

  lemma BoundsEnd(ops: seq<Op>, limit: nat, q: nat)
    requires ValidRun(ops, limit) && q + 1 < |RecordBounds(ops)|
    ensures RecordBounds(ops)[q + 1] <= |Written(ops)|
    ensures RecordSize(RecordBounds(ops), |Written(ops)|, q) <= |Written(ops)|
  {
    RunFinished(ops, limit);
    Ordered(RecordBounds(ops), q + 1, |RecordBounds(ops)| - 1);
  }

  lemma InlineRecordRead(c: Crypto, ops: seq<Op>, limit: nat, s: nat, e: nat, answers: seq<Answer>)
    requires ValidRun(ops, limit) && !InfoOf(c, ops, limit).Indirect? && s < e < |RecordBounds(ops)|
    ensures var got := Answered(c, AfterRead(IDLE, InfoOf(c, ops, limit), Want(s, e, true)), answers).got;
            CoversAll(got, RecordBounds(ops)[s], RecordBounds(ops)[e])
    ensures !CutInside(PiecesOf(ops, limit), RecordBounds(ops)[e - 1], RecordBounds(ops)[e])
    ensures RecordSize(RecordBounds(ops), |Written(ops)|, e - 1) < MAX_CHUNK
  {
    var w, bounds := Want(s, e, true), RecordBounds(ops);
    var s0 := AfterRead(IDLE, InfoOf(c, ops, limit), w);
    InlineIsOne(c, ops, limit);
    InlineRead(c, ops, limit, w);
    NothingPending(c, s0, answers);
    BoundsEnd(ops, limit, e - 1);
    RebuiltCovers(s0.got, Written(ops), bounds[s], bounds[e]);
    OneHasNoCut(PiecesOf(ops, limit), bounds[e - 1], bounds[e]);
  }

  // ----- any result -----

  /** A finished read of records `s` to `e` has delivered all their bytes, whatever the order of
      the answers, exactly if no chunk begins inside the last record. A last record below the
      maximum chunk size is safe, one above it never. */
  lemma RecordReadIff(c: Crypto, ops: seq<Op>, limit: nat, s: nat, e: nat, store: ChunkStore, answers: seq<Answer>)
    requires ValidRun(ops, limit) && s < e < |RecordBounds(ops)|
    requires Stored(LogOf(c, ops, limit)) <= store.Items
    requires FromStore(answers, store) && forall a :: a in answers ==> a.Found?
    requires Answered(c, AfterRead(IDLE, InfoOf(c, ops, limit), Want(s, e, true)), answers).regions == []
    ensures var got := Answered(c, AfterRead(IDLE, InfoOf(c, ops, limit), Want(s, e, true)), answers).got;
            var bounds := RecordBounds(ops);
            CoversAll(got, bounds[s], bounds[e]) <==> !CutInside(PiecesOf(ops, limit), bounds[e - 1], bounds[e])
    ensures var got := Answered(c, AfterRead(IDLE, InfoOf(c, ops, limit), Want(s, e, true)), answers).got;
            var bounds, size := RecordBounds(ops), RecordSize(RecordBounds(ops), |Written(ops)|, e - 1);
            (size < MAX_CHUNK ==> CoversAll(got, bounds[s], bounds[e])) &&
            (size > MAX_CHUNK ==> !CoversAll(got, bounds[s], bounds[e]))
  {
    var w := Want(s, e, true);
    if InfoOf(c, ops, limit).Indirect? {
      var got := Answered(c, AfterRead(IDLE, InfoOf(c, ops, limit), w), answers).got;
      RangeReadIsExact(c, ops, limit, w, store, answers);
      RunFinished(ops, limit);
      var gs := Spread(PiecesOf(ops, limit), 0, 0);
      SpreadIsLaid(PiecesOf(ops, limit));
      Delivers(gs, PiecesOf(ops, limit), RecordBounds(ops), |Written(ops)|, s, e, got);
    } else {
      InlineRecordRead(c, ops, limit, s, e, answers);
    }
  }

  lemma OneWrite(d: bytes, limit: nat)
    requires 0 < |d| <= TWO31 - MAX_CHUNK && limit >= IndirectSize(1)
    ensures ValidRun([Write(d)], limit) && RecordBounds([Write(d)]) == [0, |d|] && Written([Write(d)]) == d
  {
    assert [Write(d)][1..] == [];
    assert Written([Write(d)]) == d + [] == d;
    assert [0] + MarkOffsets([Write(d)], 0) == [0];
    assert Run(START, [Write(d)]) == Some(Feed(START, d));
  }

  /** One long record: reading it by its number does not ask for all of it. */
  lemma RecordReadCanMiss(d: bytes, limit: nat)
    requires MAX_CHUNK < |d| <= TWO31 - MAX_CHUNK && limit >= IndirectSize(1)
    ensures ValidRun([Write(d)], limit) && RecordBounds([Write(d)]) == [0, |d|]
    ensures !CoversAll(Wanted(Spread(PiecesOf([Write(d)], limit), 0, 0), Want(0, 1, true)), 0, |d|)
  {
    OneWrite(d, limit);
    RunFinished([Write(d)], limit);
    var ps := PiecesOf([Write(d)], limit);
    var gs := Spread(ps, 0, 0);
    SpreadIsLaid(ps);
    Delivers(gs, ps, [0, |d|], |d|, 0, 1, Wanted(gs, Want(0, 1, true)));
  }

  // ----- a record of just the maximum chunk size -----

  lemma {:induction false} FreshZeros(d: bytes, i: nat, j: nat)
    requires i <= j <= |d| && forall k :: i <= k < j ==> d[k] == 0
    ensures Rolling.Fresh(d, i, j) == Rolling.Sums(0, 0)
    decreases j - i
  {
    if i < j {
      FreshZeros(d, i, j - 1);
    }
  }

  lemma SlabZeros(d: bytes, i: nat, j: nat)
    requires i <= j <= |d| && forall k :: i <= k < j ==> d[k] == 0
    ensures Rolling.Slab(d, i, j) == 0
  {
    FreshZeros(d, i, j);
  }

  lemma SlabOne(d: bytes, i: nat, j: nat)
    requires i < j <= |d| && (forall k :: i <= k < j - 1 ==> d[k] == 0) && d[j - 1] == 1
    ensures Rolling.Slab(d, i, j) > 0
  {
    FreshZeros(d, i, j - 1);
    assert Rolling.Fresh(d, i, j) == Rolling.Sums(1, 1);
  }

  /** Zeros and a one at the end: the split point is before the end. With zeros alone it is the
      end. */
  lemma ScannedBefore(d: bytes, m: nat, n: nat)
    requires 0 < m < n == |d| && (forall k :: 0 <= k < n - 1 ==> d[k] == 0) && d[n - 1] == 1
    ensures Rolling.Scanned(d, m, n) < n
  {
    Rolling.ScannedIsLargestLowest(d, m, n, n - 1);
    SlabZeros(d, n - 1 - m, n - 1);
    SlabOne(d, n - m, n);
  }

  lemma ScannedEnd(d: bytes, m: nat, n: nat)
    requires m <= n == |d| && forall k :: 0 <= k < n ==> d[k] == 0
    ensures Rolling.Scanned(d, m, n) == n
  {
    Rolling.ScannedIsLargestLowest(d, m, n, n);
    SlabZeros(d, n - m, n);
  }

  lemma FullCut(d: bytes, size: nat) returns (s: State)
    requires |d| == MAX_CHUNK && size == Rolling.Scanned(d, MIN_CHUNK, MAX_CHUNK)
    ensures Ready(START) && s == Feed(START, d) && Ready(s)
    ensures s.pieces == [Piece(d[..size], 1)] && s.pending == d[size..] && s.marks == []
  {
    var full := START.(pending := START.pending + d);
    Nothing(d);
    FeedFills(START, d, full);
    s := Emit(full);
  }

  /** The chunks of a run that writes one record of the maximum chunk size. */
  lemma FullRecord(d: bytes, size: nat, limit: nat)
    requires |d| == MAX_CHUNK && size == Rolling.Scanned(d, MIN_CHUNK, MAX_CHUNK) && limit >= IndirectSize(1)
    ensures ValidRun([Write(d)], limit) && RecordBounds([Write(d)]) == [0, |d|]
    ensures |PiecesOf([Write(d)], limit)| == if size < |d| then 2 else 1
    ensures PiecesOf([Write(d)], limit)[0] == Piece(d[..size], 1)
  {
    var s := FullCut(d, size);
    OneWrite(d, limit);
    assert [Write(d)][1..] == [] && Run(START, [Write(d)]) == Some(s);
  }

  /** Such a record is cut or not, depending on its bytes. */
  lemma MaximumCanBeCut(limit: nat) returns (d: bytes)
    requires limit >= IndirectSize(1)
    ensures |d| == MAX_CHUNK && ValidRun([Write(d)], limit) && RecordBounds([Write(d)]) == [0, |d|]
    ensures CutInside(PiecesOf([Write(d)], limit), 0, |d|)
  {
    d := Xdr.Zeros(MAX_CHUNK - 1) + [1];
    var size := Rolling.Scanned(d, MIN_CHUNK, MAX_CHUNK);
    ScannedBefore(d, MIN_CHUNK, MAX_CHUNK);
    FullRecord(d, size, limit);
    var ps := PiecesOf([Write(d)], limit);
    assert ps[..1] == [ps[0]];
    OnePiece(ps[0]);
    assert CutAt(ps, 1) == size;
  }

  lemma MaximumCanBeWhole(limit: nat) returns (d: bytes)
    requires limit >= IndirectSize(1)
    ensures |d| == MAX_CHUNK && ValidRun([Write(d)], limit) && RecordBounds([Write(d)]) == [0, |d|]
    ensures PiecesOf([Write(d)], limit) == [Piece(d, 1)]
  {
    d := Xdr.Zeros(MAX_CHUNK);
    ScannedEnd(d, MIN_CHUNK, MAX_CHUNK);
    FullRecord(d, |d|, limit);
    assert d[..|d|] == d;
    assert PiecesOf([Write(d)], limit) == [PiecesOf([Write(d)], limit)[0]];
  }
}
