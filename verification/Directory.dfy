/** A directory coded as one record per entry, and rebuilt from its chunks in any order. */
module Directory {
  import opened Bytes
  import opened OpaqueMeta
  import opened KeyTree
  import opened Chunker
  import opened ChunkerRuns
  import opened Alignment
  import opened RecordRuns
  import opened Coded
  import opened Reading
  import opened ReaderTable
  import opened Conservation
  import opened RoundTrip
  import opened FileMeta
  import opened DirReader
  import Xdr

  // ----- coding -----

  /** What `dirProgress` does: every entry is written, and a mark made behind it. */
  function DirOps(encs: seq<bytes>): seq<Op> {
    if encs == [] then [] else [Write(encs[0]), MarkRecord] + DirOps(encs[1..])
  }

  function Concat(encs: seq<bytes>): bytes {
    if encs == [] then [] else encs[0] + Concat(encs[1..])
  }

  /** Where every entry ends, when the first begins at `ofs`. */
  function Ends(encs: seq<bytes>, ofs: nat): seq<nat> {
    if encs == [] then [] else [ofs + |encs[0]|] + Ends(encs[1..], ofs + |encs[0]|)
  }

  ghost predicate NoneEmpty(encs: seq<bytes>) { forall i :: 0 <= i < |encs| ==> 0 < |encs[i]| }

  /** A record that has bytes may be closed. */
  lemma MayMark(s: State)
    requires Inv(s, MAX_CHUNK - 1) && s.starts[|s.starts| - 1] < Total(s)
    ensures CanMark(s)
  {
    var n := |s.marks|;
    if n > 0 {
      assert s.starts[Records(s.pieces) + (n - 1)] == |Content(s.pieces)| + s.marks[n - 1];
    }
  }

  lemma EntryWritten(s: State, d: bytes)
    requires Inv(s, MAX_CHUNK - 1) && 0 < |d| && s.starts[|s.starts| - 1] <= Total(s)
    ensures var s' := Feed(s, d);
            Inv(s', MAX_CHUNK - 1) && CanMark(s') && Total(s') == Total(s) + |d| && s'.starts == s.starts
  {
    FeedInv(s, d);
    FeedStream(s, d);
    MayMark(Feed(s, d));
  }

  lemma EntryMarked(s: State)
    requires Inv(s, MAX_CHUNK - 1) && CanMark(s)
    ensures var s' := Mark(s);
            Inv(s', MAX_CHUNK - 1) && Total(s') == Total(s) && s'.starts == s.starts + [Total(s)]
  {
    MarkInv(s);
    MarkStream(s);
  }

  lemma RunTwo(s: State, d: bytes, ops: seq<Op>)
    requires Ready(s) && CanMark(Feed(s, d))
    ensures Run(s, [Write(d), MarkRecord] + ops) == Run(Mark(Feed(s, d)), ops)
  {
    var all := [Write(d), MarkRecord] + ops;
    assert all[1..] == [MarkRecord] + ops && ([MarkRecord] + ops)[1..] == ops;
  }

  /** Coding a directory breaks no rule about marks. */
  lemma {:induction false} DirRuns(s: State, encs: seq<bytes>)
    requires Inv(s, MAX_CHUNK - 1) && NoneEmpty(encs) && s.starts[|s.starts| - 1] <= Total(s)
    ensures Run(s, DirOps(encs)).Some?
    decreases |encs|
  {
    if encs != [] {
      EntryWritten(s, encs[0]);
      EntryMarked(Feed(s, encs[0]));
      RunTwo(s, encs[0], DirOps(encs[1..]));
      DirRuns(Mark(Feed(s, encs[0])), encs[1..]);
    }
  }

  lemma TwoOps(d: bytes, ops: seq<Op>, ofs: nat)
    ensures Written([Write(d), MarkRecord] + ops) == d + Written(ops)
    ensures MarkOffsets([Write(d), MarkRecord] + ops, ofs) == [ofs + |d|] + MarkOffsets(ops, ofs + |d|)
  {
    var all := [Write(d), MarkRecord] + ops;
    assert all[1..] == [MarkRecord] + ops && ([MarkRecord] + ops)[1..] == ops;
    assert Written([MarkRecord] + ops) == [] + Written(ops);
  }

  lemma {:induction false} DirStream(encs: seq<bytes>, ofs: nat)
    ensures Written(DirOps(encs)) == Concat(encs)
    ensures MarkOffsets(DirOps(encs), ofs) == Ends(encs, ofs)
  {
    if encs != [] {
      TwoOps(encs[0], DirOps(encs[1..]), ofs);
      DirStream(encs[1..], ofs + |encs[0]|);
    }
  }

  // ----- where the entries lie -----

  function Bound(encs: seq<bytes>, i: nat): nat
    requires i <= |encs|
  {
    |Concat(encs[..i])|
  }

  lemma {:induction false} ConcatConcat(a: seq<bytes>, b: seq<bytes>)
    ensures Concat(a + b) == Concat(a) + Concat(b)
  {
    if a == [] {
      assert a + b == b;
    } else {
      assert (a + b)[1..] == a[1..] + b;
      ConcatConcat(a[1..], b);
      Assoc(a[0], Concat(a[1..]), Concat(b));
    }
  }

  lemma {:induction false} EndsAre(encs: seq<bytes>, ofs: nat, i: nat)
    requires i < |encs|
    ensures |Ends(encs, ofs)| == |encs| && Ends(encs, ofs)[i] == ofs + |Concat(encs[..i + 1])|
  {
    EndsLength(encs, ofs);
    assert encs[..i + 1][1..] == encs[1..][..i];
    if i == 0 {
      assert encs[1..][..0] == [];
      assert Concat(encs[..1]) == encs[0] + [];
    } else {
      EndsAre(encs[1..], ofs + |encs[0]|, i - 1);
    }
  }

  lemma {:induction false} EndsLength(encs: seq<bytes>, ofs: nat)
    ensures |Ends(encs, ofs)| == |encs|
  {
    if encs != [] {
      EndsLength(encs[1..], ofs + |encs[0]|);
    }
  }

  /** The boundaries in the stream are those between the entries. */
  ghost predicate BoundsAre(bounds: seq<nat>, encs: seq<bytes>) {
    |bounds| == |encs| + 1 && forall i :: 0 <= i <= |encs| ==> bounds[i] == Bound(encs, i)
  }

  lemma StartsAre(encs: seq<bytes>, starts: seq<nat>)
    requires starts == [0] + Ends(encs, 0)
    ensures BoundsAre(starts, encs)
  {
    EndsLength(encs, 0);
    forall i | 0 <= i <= |encs| ensures starts[i] == Bound(encs, i) {
      if i > 0 {
        EndsAre(encs, 0, i - 1);
      }
    }
  }

  lemma WholeDir(encs: seq<bytes>)
    ensures Bound(encs, |encs|) == |Concat(encs)|
  {
    assert encs[..|encs|] == encs;
  }

  lemma DirBounds(encs: seq<bytes>, limit: nat)
    requires ValidRun(DirOps(encs), limit) && NoneEmpty(encs)
    ensures var s := EndState(DirOps(encs), limit); BoundsAre(Bounds(s.starts, Total(s)), encs)
  {
    var s := EndState(DirOps(encs), limit);
    EndFacts(DirOps(encs), limit);
    RunStarts(START, DirOps(encs), 0);
    DirStream(encs, 0);
    StartsAre(encs, s.starts);
    WholeDir(encs);
  }

  // ----- the chunks hold whole entries -----

  lemma SliceConcat(encs: seq<bytes>, a: nat, b: nat)
    requires a <= b <= |encs|
    ensures Bound(encs, a) <= Bound(encs, b) <= |Concat(encs)|
    ensures Concat(encs)[Bound(encs, a)..Bound(encs, b)] == Concat(encs[a..b])
  {
    var x, y, z := encs[..a], encs[a..b], encs[b..];
    assert encs == x + (y + z) && encs[..b] == x + y;
    ConcatConcat(x, y + z);
    ConcatConcat(y, z);
    ConcatConcat(x, y);
    Middle(Concat(x), Concat(y), Concat(z));
  }

  lemma Middle(x: bytes, y: bytes, z: bytes)
    ensures (x + (y + z))[|x|..|x + y|] == y
  {
  }

  /** The decoder reads every entry back, whatever follows it. */
  ghost predicate ReadBack(dec: DirReader.Decoder, es: seq<FileInfo>, encs: seq<bytes>) {
    |es| == |encs| && forall i, rest :: 0 <= i < |es| ==> dec(encs[i] + rest) == Xdr.Got(es[i], rest)
  }

  lemma {:induction false} DecodedConcat(dec: DirReader.Decoder, es: seq<FileInfo>, encs: seq<bytes>, n: nat)
    requires ReadBack(dec, es, encs) && n == |encs|
    ensures Decoded(dec, Concat(encs), n) == es
  {
    if es != [] {
      var rest := Concat(encs[1..]);
      assert dec(encs[0] + rest) == Xdr.Got(es[0], rest);
      ReadBackTail(dec, es, encs, 1, |es|);
      DecodedConcat(dec, es[1..], encs[1..], n - 1);
      assert [es[0]] + es[1..] == es;
    }
  }

  lemma ReadBackTail(dec: DirReader.Decoder, es: seq<FileInfo>, encs: seq<bytes>, a: nat, b: nat)
    requires ReadBack(dec, es, encs) && a <= b <= |es|
    ensures ReadBack(dec, es[a..b], encs[a..b])
  {
    forall i, rest | 0 <= i < b - a ensures dec(encs[a..b][i] + rest) == Xdr.Got(es[a..b][i], rest) {
      assert dec(encs[a + i] + rest) == Xdr.Got(es[a + i], rest);
    }
  }

  /** Entries smaller than a chunk are never cut. */
  lemma PieceIsWhole(encs: seq<bytes>, bounds: seq<nat>, p: Piece, ofs: nat, first: nat)
    requires BoundsAre(bounds, encs) && forall i :: 0 <= i < |encs| ==> |encs[i]| < MAX_CHUNK
    requires PieceAligned(bounds, |Concat(encs)|, ofs, p, first)
    ensures Whole(bounds, ofs, p, first)
  {
    if !Whole(bounds, ofs, p, first) {
      EntrySize(encs, bounds, first + p.recs - 1);
    }
  }

  lemma PieceHoldsEntries(encs: seq<bytes>, bounds: seq<nat>, p: Piece, ofs: nat, first: nat)
    requires BoundsAre(bounds, encs) && Whole(bounds, ofs, p, first)
    requires ofs + |p.data| <= |Concat(encs)| && p.data == Concat(encs)[ofs..ofs + |p.data|]
    ensures first + p.recs <= |encs| && p.data == Concat(encs[first..first + p.recs])
  {
    SliceConcat(encs, first, first + p.recs);
  }

  lemma EntriesAreBlock(dec: DirReader.Decoder, es: seq<FileInfo>, encs: seq<bytes>, g: Part, a: nat, n: nat)
    requires ReadBack(dec, es, encs) && 0 < n && a + n <= |es|
    requires g.recno == a && g.recs == n && g.data == Concat(encs[a..a + n])
    ensures BlockOk(dec, g, es)
  {
    ReadBackTail(dec, es, encs, a, a + n);
    DecodedConcat(dec, es[a..a + n], encs[a..a + n], n);
  }

  lemma OneConcat(d: bytes)
    ensures Concat([d]) == d
  {
    assert Concat([d]) == d + Concat([]);
  }

  lemma EntrySize(encs: seq<bytes>, bounds: seq<nat>, q: nat)
    requires BoundsAre(bounds, encs) && q <= |encs|
    ensures RecordSize(bounds, |Concat(encs)|, q) == if q < |encs| then |encs[q]| else 0
  {
    WholeDir(encs);
    if q < |encs| {
      assert encs[..q + 1] == encs[..q] + [encs[q]];
      ConcatConcat(encs[..q], [encs[q]]);
      OneConcat(encs[q]);
    }
  }

  // ----- the whole directory -----

  ghost predicate SmallEntries(encs: seq<bytes>) { forall i :: 0 <= i < |encs| ==> |encs[i]| < MAX_CHUNK }

  lemma PieceLies(bounds: seq<nat>, end: nat, ps: seq<Piece>, k: nat)
    requires Finished(ps, bounds, end) && k < |ps|
    ensures PieceAligned(bounds, end, |Content(ps[..k])|, ps[k], Records(ps[..k]))
    ensures |Content(ps[..k])| + |ps[k].data| <= |Content(ps)|
    ensures ps[k].data == Content(ps)[|Content(ps[..k])|..|Content(ps[..k])| + |ps[k].data|]
  {
    assert AlignedAt(bounds, end, ps, k);
    SpreadTiles(ps, 0, 0, k);
    PieceFits(ps, k);
  }

  lemma WholeEntries(encs: seq<bytes>, bounds: seq<nat>, p: Piece, ofs: nat, first: nat)
    requires SmallEntries(encs) && BoundsAre(bounds, encs)
    requires PieceAligned(bounds, |Concat(encs)|, ofs, p, first)
    requires ofs + |p.data| <= |Concat(encs)| && p.data == Concat(encs)[ofs..ofs + |p.data|]
    ensures 0 < p.recs && first + p.recs <= |encs| && p.data == Concat(encs[first..first + p.recs])
  {
    PieceIsWhole(encs, bounds, p, ofs, first);
    PieceHoldsEntries(encs, bounds, p, ofs, first);
  }

  /** No chunk of a directory cuts an entry. */
  lemma DirPieceEntries(encs: seq<bytes>, bounds: seq<nat>, ps: seq<Piece>, k: nat, first: nat)
    requires SmallEntries(encs) && BoundsAre(bounds, encs)
    requires Finished(ps, bounds, |Concat(encs)|) && Content(ps) == Concat(encs)
    requires k < |ps| && first == Records(ps[..k])
    ensures 0 < ps[k].recs && first + ps[k].recs <= |encs|
    ensures ps[k].data == Concat(encs[first..first + ps[k].recs])
  {
    PieceLies(bounds, |Concat(encs)|, ps, k);
    WholeEntries(encs, bounds, ps[k], |Content(ps[..k])|, first);
  }

  /** All chunks of a directory are blocks of whole entries. */
  lemma DirPiece(dec: DirReader.Decoder, es: seq<FileInfo>, encs: seq<bytes>, bounds: seq<nat>, ps: seq<Piece>,
                 k: nat, g: Part)
    requires ReadBack(dec, es, encs) && SmallEntries(encs) && BoundsAre(bounds, encs)
    requires Finished(ps, bounds, |Concat(encs)|) && Content(ps) == Concat(encs)
    requires k < |ps| && g == Part(|Content(ps[..k])|, Records(ps[..k]), ps[k].data, ps[k].recs)
    ensures BlockOk(dec, g, es)
  {
    DirPieceEntries(encs, bounds, ps, k, g.recno);
    EntriesAreBlock(dec, es, encs, g, g.recno, g.recs);
  }

  lemma RecordsBefore(ps: seq<Piece>, j: nat, k: nat)
    requires j < k <= |ps|
    ensures Records(ps[..j]) + ps[j].recs <= Records(ps[..k])
  {
    assert ps[..k] == ps[..j] + ([ps[j]] + ps[j + 1..k]);
    ContentConcat(ps[..j], [ps[j]] + ps[j + 1..k]);
    ContentConcat([ps[j]], ps[j + 1..k]);
    OnePiece(ps[j]);
  }

  lemma PiecesRecsApart(ps: seq<Piece>, j: nat, k: nat)
    requires j < k < |ps|
    ensures |Spread(ps, 0, 0)| == |ps| && RecsApart(Spread(ps, 0, 0)[j], Spread(ps, 0, 0)[k])
  {
    SpreadTiles(ps, 0, 0, j);
    SpreadTiles(ps, 0, 0, k);
    RecordsBefore(ps, j, k);
  }

  lemma {:induction false} RecordPresent(ps: seq<Piece>, bo: nat, ro: nat, r: nat)
    requires ro <= r < ro + Records(ps)
    ensures Present(Spread(ps, bo, ro), r)
  {
    var rest := Spread(ps[1..], bo + |ps[0].data|, ro + ps[0].recs);
    var gs := Spread(ps, bo, ro);
    if r < ro + ps[0].recs {
      assert HoldsRec(gs[0], r);
    } else {
      RecordPresent(ps[1..], bo + |ps[0].data|, ro + ps[0].recs, r);
      var i :| 0 <= i < |rest| && HoldsRec(rest[i], r);
      assert gs[i + 1] == rest[i];
    }
  }

  lemma DirBlocks(dec: DirReader.Decoder, es: seq<FileInfo>, encs: seq<bytes>, bounds: seq<nat>, ps: seq<Piece>)
    requires ReadBack(dec, es, encs) && SmallEntries(encs) && BoundsAre(bounds, encs)
    requires Finished(ps, bounds, |Concat(encs)|) && Content(ps) == Concat(encs)
    ensures Blocks(dec, Spread(ps, 0, 0), es) && forall r :: 0 <= r < |es| ==> Present(Spread(ps, 0, 0), r)
  {
    var gs := Spread(ps, 0, 0);
    SpreadLength(ps, 0, 0);
    forall i | 0 <= i < |gs| ensures BlockOk(dec, gs[i], es) {
      SpreadTiles(ps, 0, 0, i);
      DirPiece(dec, es, encs, bounds, ps, i, gs[i]);
    }
    forall i, j | 0 <= i < j < |gs| ensures RecsApart(gs[i], gs[j]) {
      PiecesRecsApart(ps, i, j);
    }
    forall r | 0 <= r < |es| ensures Present(gs, r) {
      RecordPresent(ps, 0, 0, r);
    }
  }

  /** A read of all records wants all blocks. */
  lemma {:induction false} AllRecordsWanted(gs: seq<Part>, n: nat)
    requires forall i :: 0 <= i < |gs| ==> 0 < gs[i].recs && gs[i].recno + gs[i].recs <= n
    ensures Wanted(gs, Want(0, n, true)) == gs
  {
    if gs != [] {
      AllRecordsWanted(gs[1..], n);
    }
  }

  // ----- any order of arrival -----

  lemma ApartInAnyOrder(gs: seq<Part>, hs: seq<Part>, j: nat, k: nat)
    requires multiset(gs) == multiset(hs) && j < k < |hs|
    requires forall a, b :: 0 <= a < b < |gs| ==> RecsApart(gs[a], gs[b])
    requires forall a :: 0 <= a < |gs| ==> 0 < gs[a].recs
    ensures RecsApart(hs[j], hs[k])
  {
    var a := IndexIn(gs, hs, j);
    var b := IndexIn(gs, hs, k);
    if a == b {
      TwiceCounts(hs, j, k);
      forall d | 0 <= d < |gs| && d != a ensures gs[d] != gs[a] {
        assert RecsApart(gs[if d < a then d else a], gs[if d < a then a else d]);
      }
      OnceCounts(gs, a);
    } else {
      assert RecsApart(gs[if a < b then a else b], gs[if a < b then b else a]);
    }
  }

  lemma BlocksInAnyOrder(dec: DirReader.Decoder, gs: seq<Part>, hs: seq<Part>, es: seq<FileInfo>)
    requires Blocks(dec, gs, es) && multiset(gs) == multiset(hs)
    requires forall r :: 0 <= r < |es| ==> Present(gs, r)
    ensures Blocks(dec, hs, es) && forall r :: 0 <= r < |es| ==> Present(hs, r)
  {
    forall i | 0 <= i < |hs| ensures BlockOk(dec, hs[i], es) {
      var a := IndexIn(gs, hs, i);
    }
    forall j, k | 0 <= j < k < |hs| ensures RecsApart(hs[j], hs[k]) {
      ApartInAnyOrder(gs, hs, j, k);
    }
    forall r | 0 <= r < |es| ensures Present(hs, r) {
      assert Present(gs, r);
      var a :| 0 <= a < |gs| && HoldsRec(gs[a], r);
      var k := IndexIn(hs, gs, a);
    }
  }

  // ----- the whole directory -----

  /** The entries in the order they are written, each with its attributes in any order. */
  ghost predicate AreEncodings(fs: seq<FileInfo>, encs: seq<bytes>) {
    |fs| == |encs| && forall i :: 0 <= i < |fs| ==> IsEncoding(fs[i], encs[i])
  }

  /** The entries as a reader takes them, with the attributes within the limits. */
  function AsRead(encs: seq<bytes>): (es: seq<FileInfo>)
    ensures |es| == |encs|
  {
    seq(|encs|, i requires 0 <= i < |encs| => ReadInfo(encs[i]))
  }

  /** A directory: some entries, each smaller than a chunk. */
  ghost predicate IsDirectory(fs: seq<FileInfo>, es: seq<FileInfo>, encs: seq<bytes>, limit: nat) {
    fs != [] && AreEncodings(fs, encs) && es == AsRead(encs) && SmallEntries(encs) && |Concat(encs)| < TWO63 &&
    limit >= IndirectSize(1)
  }

  lemma EncodingsReadBack(fs: seq<FileInfo>, encs: seq<bytes>)
    requires AreEncodings(fs, encs)
    ensures ReadBack(GetFileInfo, AsRead(encs), encs) && NoneEmpty(encs)
  {
    forall i, rest | 0 <= i < |encs| ensures GetFileInfo(encs[i] + rest) == Xdr.Got(AsRead(encs)[i], rest) {
      EncodingReads(fs[i], encs[i], rest);
    }
    forall i | 0 <= i < |encs| ensures 0 < |encs[i]| {
      EncodingReads(fs[i], encs[i], []);
    }
  }

  /** Reading changes no entry exactly if all are within the limits. */
  lemma ReadUnchanged(fs: seq<FileInfo>, encs: seq<bytes>)
    requires AreEncodings(fs, encs)
    ensures AsRead(encs) == fs <==> forall i :: 0 <= i < |fs| ==> WithinLimits(fs[i])
  {
    forall i | 0 <= i < |fs| ensures AsRead(encs)[i] == fs[i] <==> WithinLimits(fs[i]) {
      EncodingReads(fs[i], encs[i], []);
    }
  }

  lemma {:induction false} DirWritesShort(encs: seq<bytes>)
    requires SmallEntries(encs)
    ensures ShortWrites(DirOps(encs))
  {
    if encs != [] {
      DirWritesShort(encs[1..]);
      var ops, rest := DirOps(encs), DirOps(encs[1..]);
      forall i | 0 <= i < |ops| && ops[i].Write? ensures |ops[i].data| <= TWO31 - MAX_CHUNK {
        assert i >= 2 ==> ops[i] == rest[i - 2];
        assert |encs[0]| < MAX_CHUNK;
      }
    }
  }

  lemma DirIsValidRun(fs: seq<FileInfo>, es: seq<FileInfo>, encs: seq<bytes>, limit: nat)
    requires IsDirectory(fs, es, encs, limit)
    ensures ValidRun(DirOps(encs), limit) && NoneEmpty(encs) && Written(DirOps(encs)) == Concat(encs)
  {
    EncodingsReadBack(fs, encs);
    DirWritesShort(encs);
    StartInv();
    DirRuns(START, encs);
    DirStream(encs, 0);
    assert Concat(encs) == encs[0] + Concat(encs[1..]);
  }

  /** The blocks of a coded directory, and how many records it has. */
  lemma DirFacts(c: Crypto, fs: seq<FileInfo>, es: seq<FileInfo>, encs: seq<bytes>, limit: nat)
    requires IsDirectory(fs, es, encs, limit)
    ensures ValidRun(DirOps(encs), limit)
    ensures var gs := Spread(PiecesOf(DirOps(encs), limit), 0, 0);
            Blocks(GetFileInfo, gs, es) && forall r :: 0 <= r < |es| ==> Present(gs, r)
    ensures InternalRecords(InfoOf(c, DirOps(encs), limit)) == |es|
  {
    DirIsValidRun(fs, es, encs, limit);
    EncodingsReadBack(fs, encs);
    var s := EndState(DirOps(encs), limit);
    EndFacts(DirOps(encs), limit);
    PiecesFacts(DirOps(encs), limit);
    FlushFinishes(s);
    DirBounds(encs, limit);
    DirBlocks(GetFileInfo, es, encs, Bounds(s.starts, Total(s)), PiecesOf(DirOps(encs), limit));
    FinishTotals(c, s, limit);
  }

  /** A read of all records, answered from the store in any order, gives back the directory, with
      its record numbers sorted; it is unchanged exactly if every entry is within the limits. */
  lemma DirectoryRebuilds(c: Crypto, fs: seq<FileInfo>, es: seq<FileInfo>, encs: seq<bytes>, limit: nat,
                          store: ChunkStore, answers: seq<Answer>)
    requires IsDirectory(fs, es, encs, limit) && ValidRun(DirOps(encs), limit)
    requires Stored(LogOf(c, DirOps(encs), limit)) <= store.Items
    requires FromStore(answers, store) && forall a :: a in answers ==> a.Found?
    requires Answered(c, AfterRead(IDLE, InfoOf(c, DirOps(encs), limit), Want(0, |es|, true)), answers).regions == []
    ensures var s := Answered(c, AfterRead(IDLE, InfoOf(c, DirOps(encs), limit), Want(0, |es|, true)), answers);
            ListAll(GetFileInfo, s.got) == Listed(Range(0, |es|), es) && Blocks(GetFileInfo, s.got, es)
    ensures es == fs <==> forall i :: 0 <= i < |fs| ==> WithinLimits(fs[i])
  {
    var ops, w := DirOps(encs), Want(0, |es|, true);
    var s := Answered(c, AfterRead(IDLE, InfoOf(c, ops, limit), w), answers);
    DirFacts(c, fs, es, encs, limit);
    if InfoOf(c, ops, limit).Indirect? {
      var gs := Spread(PiecesOf(ops, limit), 0, 0);
      RangeReadIsExact(c, ops, limit, w, store, answers);
      AllRecordsWanted(gs, |es|);
      BlocksInAnyOrder(GetFileInfo, gs, s.got, es);
    } else {
      InlineDirectory(c, fs, es, encs, limit, answers);
    }
    ListAllIsDirectory(GetFileInfo, s.got, es);
    ReadUnchanged(fs, encs);
  }

  /** An inline directory arrives as one block. */
  lemma InlineBlock(c: Crypto, encs: seq<bytes>, limit: nat, w: Want)
    requires ValidRun(DirOps(encs), limit) && !InfoOf(c, DirOps(encs), limit).Indirect?
    ensures var s := AfterRead(IDLE, InfoOf(c, DirOps(encs), limit), w);
            s.regions == [] &&
            s.got == [Part(0, 0, Concat(encs), InternalRecords(InfoOf(c, DirOps(encs), limit)))]
  {
    EndFacts(DirOps(encs), limit);
    InlineInfo(EndState(DirOps(encs), limit));
    DirStream(encs, 0);
  }

  lemma OneBlock(dec: DirReader.Decoder, es: seq<FileInfo>, encs: seq<bytes>, gs: seq<Part>)
    requires ReadBack(dec, es, encs) && es != [] && gs == [Part(0, 0, Concat(encs), |es|)]
    ensures Blocks(dec, gs, es) && forall r :: 0 <= r < |es| ==> Present(gs, r)
  {
    assert encs[0..0 + |es|] == encs;
    EntriesAreBlock(dec, es, encs, gs[0], 0, |es|);
    forall r | 0 <= r < |es| ensures Present(gs, r) {
      assert HoldsRec(gs[0], r);
    }
  }

  lemma InlineDirectory(c: Crypto, fs: seq<FileInfo>, es: seq<FileInfo>, encs: seq<bytes>, limit: nat,
                        answers: seq<Answer>)
    requires IsDirectory(fs, es, encs, limit) && ValidRun(DirOps(encs), limit)
    requires !InfoOf(c, DirOps(encs), limit).Indirect?
    requires InternalRecords(InfoOf(c, DirOps(encs), limit)) == |es|
    ensures var s := Answered(c, AfterRead(IDLE, InfoOf(c, DirOps(encs), limit), Want(0, |es|, true)), answers);
            Blocks(GetFileInfo, s.got, es) && forall r :: 0 <= r < |es| ==> Present(s.got, r)
  {
    var s0 := AfterRead(IDLE, InfoOf(c, DirOps(encs), limit), Want(0, |es|, true));
    InlineBlock(c, encs, limit, Want(0, |es|, true));
    NothingPending(c, s0, answers);
    EncodingsReadBack(fs, encs);
    OneBlock(GetFileInfo, es, encs, s0.got);
  }
}
