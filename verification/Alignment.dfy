/** How the chunks lie relative to the records of the stream. */
module Alignment {
  import opened Bytes
  import opened KeyTree
  import opened Chunker
  import opened Build

  /** Exactly the first `n` boundaries lie before `ofs`. */
  ghost predicate Before(bounds: seq<nat>, ofs: nat, n: nat) {
    n <= |bounds| &&
    (forall i :: 0 <= i < n ==> bounds[i] < ofs) &&
    (forall i :: n <= i < |bounds| ==> ofs <= bounds[i])
  }

  /** Length of record `q`: up to the next boundary, or to the end of the stream so far. */
  ghost function RecordSize(bounds: seq<nat>, end: nat, q: nat): int
    requires q < |bounds|
  {
    (if q + 1 < |bounds| then bounds[q + 1] else end) - bounds[q]
  }

  /** The chunk starts and ends on a record boundary. */
  ghost predicate Whole(bounds: seq<nat>, ofs: nat, p: Piece, first: nat) {
    0 < p.recs && first + p.recs < |bounds| &&
    bounds[first] == ofs && bounds[first + p.recs] == ofs + |p.data|
  }

  /** The chunk is a part of one record of at least the maximum chunk size: its first part if
      it has one record, a later part if it has none. */
  ghost predicate PartOfLong(bounds: seq<nat>, end: nat, ofs: nat, p: Piece, first: nat) {
    p.recs <= 1 && 0 < first + p.recs <= |bounds| &&
    (p.recs == 1 ==> bounds[first] == ofs) &&
    RecordSize(bounds, end, first + p.recs - 1) >= MAX_CHUNK
  }

  /** `first` records start before the chunk and `p.recs` inside it. */
  ghost predicate PieceAligned(bounds: seq<nat>, end: nat, ofs: nat, p: Piece, first: nat) {
    Before(bounds, ofs, first) && Before(bounds, ofs + |p.data|, first + p.recs) &&
    (Whole(bounds, ofs, p, first) || PartOfLong(bounds, end, ofs, p, first))
  }

  ghost predicate AllAligned(bounds: seq<nat>, end: nat, ps: seq<Piece>) {
    forall k :: 0 <= k < |ps| ==> AlignedAt(bounds, end, ps, k)
  }

  ghost predicate AlignedAt(bounds: seq<nat>, end: nat, ps: seq<Piece>, k: nat)
    requires k < |ps|
  {
    PieceAligned(bounds, end, |Content(ps[..k])|, ps[k], Records(ps[..k]))
  }

  // ----- the invariant of a run -----

  ghost predicate Increasing(bounds: seq<nat>) {
    0 < |bounds| && bounds[0] == 0 && forall i, j :: 0 <= i < j < |bounds| ==> bounds[i] < bounds[j]
  }

  /** `r` record starts lie before `o`, the others at the marks after `o`. */
  ghost predicate MarksAt(starts: seq<nat>, marks: seq<nat>, o: nat, r: nat) {
    |starts| == r + |marks| &&
    (forall i :: 0 <= i < r ==> starts[i] < o) &&
    (forall i :: 0 <= i < |marks| ==> starts[r + i] == o + marks[i])
  }

  /** Chunks made so far, marks pending, and record starts of a stream of `end` bytes. The marks
      are the record starts that lie in the pending bytes; with no mark pending, the current
      record is already at least the maximum chunk size. */
  ghost predicate Core(ps: seq<Piece>, marks: seq<nat>, starts: seq<nat>, end: nat) {
    PiecesOk(ps) && Increasing(starts) && MarksAt(starts, marks, |Content(ps)|, Records(ps)) &&
    (marks == [] ==> end - starts[|starts| - 1] >= MAX_CHUNK) && AllAligned(starts, end, ps)
  }

  ghost predicate Inv(s: State, limit: nat) {
    Shape(s, limit) && Core(s.pieces, s.marks, s.starts, Total(s))
  }

  lemma SnocPiece(ps: seq<Piece>, p: Piece)
    ensures Content(ps + [p]) == Content(ps) + p.data
    ensures Records(ps + [p]) == Records(ps) + p.recs
  {
    ContentConcat(ps, [p]);
    OnePiece(p);
  }

  /** A later end, or one more boundary at the end, leaves finished chunks aligned. */
  lemma AlignedGrows(bounds: seq<nat>, end: nat, ps: seq<Piece>, bounds': seq<nat>, end': nat)
    requires AllAligned(bounds, end, ps) && |Content(ps)| <= end <= end'
    requires bounds' == bounds || bounds' == bounds + [end]
    ensures AllAligned(bounds', end', ps)
  {
    forall k | 0 <= k < |ps| ensures AlignedAt(bounds', end', ps, k) {
      assert AlignedAt(bounds, end, ps, k);
      PrefixContent(ps, k);
      PieceAlignedGrows(bounds, end, |Content(ps[..k])|, ps[k], Records(ps[..k]), bounds', end');
    }
  }

  lemma PieceAlignedGrows(bounds: seq<nat>, end: nat, ofs: nat, p: Piece, first: nat,
                          bounds': seq<nat>, end': nat)
    requires PieceAligned(bounds, end, ofs, p, first) && ofs + |p.data| <= end <= end'
    requires bounds' == bounds || bounds' == bounds + [end]
    ensures PieceAligned(bounds', end', ofs, p, first)
  {
  }

  lemma PrefixContent(ps: seq<Piece>, k: nat)
    requires k < |ps|
    ensures |Content(ps[..k])| + |ps[k].data| <= |Content(ps)|
    ensures Content(ps[..k + 1]) == Content(ps[..k]) + ps[k].data
    ensures Records(ps[..k + 1]) == Records(ps[..k]) + ps[k].recs
  {
    assert ps[..k + 1] == ps[..k] + [ps[k]];
    SnocPiece(ps[..k], ps[k]);
    assert ps == ps[..k + 1] + ps[k + 1..];
    ContentConcat(ps[..k + 1], ps[k + 1..]);
  }

  lemma AlignedSnoc(bounds: seq<nat>, end: nat, ps: seq<Piece>, p: Piece)
    requires AllAligned(bounds, end, ps)
    requires PieceAligned(bounds, end, |Content(ps)|, p, Records(ps))
    ensures AllAligned(bounds, end, ps + [p])
  {
    var qs := ps + [p];
    forall k | 0 <= k < |qs| ensures AlignedAt(bounds, end, qs, k) {
      if k < |ps| {
        assert AlignedAt(bounds, end, ps, k);
        assert qs[..k] == ps[..k];
      } else {
        assert qs[..k] == ps;
      }
    }
  }

  // ----- one cut keeps the invariant -----

  lemma MarksAtBefore(starts: seq<nat>, marks: seq<nat>, o: nat, r: nat, size: nat, recs: nat)
    requires MarksAt(starts, marks, o, r) && recs <= |marks|
    requires forall i :: 0 <= i < recs ==> marks[i] < size
    requires forall i :: recs <= i < |marks| ==> size <= marks[i]
    ensures Before(starts, o, r) && Before(starts, o + size, r + recs)
    ensures MarksAt(starts, Shift(marks, recs, size), o + size, r + recs)
  {
    var marks' := Shift(marks, recs, size);
    forall i | 0 <= i < |starts|
      ensures i < r + recs ==> starts[i] < o + size
      ensures r <= i ==> o <= starts[i]
      ensures r + recs <= i ==> o + size <= starts[i]
    {
      if r <= i {
        assert starts[r + (i - r)] == o + marks[i - r];
      }
    }
    forall i | 0 <= i < |marks'|
      ensures starts[r + recs + i] == o + size + marks'[i]
    {
      assert starts[r + (recs + i)] == o + marks[recs + i];
    }
  }

  lemma MarksAfter(starts: seq<nat>, marks: seq<nat>, o: nat, r: nat, size: nat, recs: nat, o': nat, r': nat)
    requires MarksAt(starts, marks, o, r) && recs <= |marks| && o' == o + size && r' == r + recs
    requires forall i :: 0 <= i < recs ==> marks[i] < size
    requires forall i :: recs <= i < |marks| ==> size <= marks[i]
    ensures Before(starts, o, r) && Before(starts, o + size, r + recs)
    ensures MarksAt(starts, Shift(marks, recs, size), o', r')
  {
    MarksAtBefore(starts, marks, o, r, size, recs);
  }

  /** What `Emit` does to the parts of the state. */
  lemma EmitParts(s: State) returns (size: nat, recs: nat, p: Piece)
    requires 0 < |s.pending| && Shape(s, MAX_CHUNK)
    ensures (size, recs) == Cut(s.pending, s.marks) && p == Piece(s.pending[..size], recs)
    ensures |p.data| == size && PieceOk(p) && recs <= |s.marks|
    ensures forall i :: 0 <= i < recs ==> s.marks[i] < size
    ensures forall i :: recs <= i < |s.marks| ==> size <= s.marks[i]
    ensures recs < |s.marks| ==> s.marks[recs] == size
    ensures Emit(s) == State(s.pieces + [p], s.pending[size..], Shift(s.marks, recs, size), s.starts)
    ensures Content(Emit(s).pieces) == Content(s.pieces) + p.data
    ensures Records(Emit(s).pieces) == Records(s.pieces) + recs
    ensures Total(Emit(s)) == Total(s)
  {
    var (n, m) := Cut(s.pending, s.marks);
    size, recs := n, m;
    CutSplitsMarks(s.pending, s.marks);
    CutShift(s);
    IncreasingCount(s.marks, recs, size);
    p := Piece(s.pending[..size], recs);
    SnocPiece(s.pieces, p);
  }

  /** A cut of a full buffer, or of the tail of a long record, makes a chunk of whole records
      or a part of one long record. */
  lemma EmitPiece(ps: seq<Piece>, marks: seq<nat>, starts: seq<nat>, end: nat, size: nat, recs: nat, p: Piece)
    requires Core(ps, marks, starts, end) && recs <= |marks|
    requires marks == [] || (marks[0] == 0 && end >= |Content(ps)| + MAX_CHUNK)
    requires |marks| <= 1 ==> recs == |marks|
    requires |marks| > 1 ==> 0 < recs < |marks| && marks[recs] == size
    requires |p.data| == size && p.recs == recs
    ensures var r, o := Records(ps), |Content(ps)|;
            Whole(starts, o, p, r) || PartOfLong(starts, end, o, p, r)
  {
    var r, o := Records(ps), |Content(ps)|;
    if |marks| == 0 {
      assert PartOfLong(starts, end, o, p, r);
    } else if |marks| == 1 {
      assert starts[r + 0] == o + marks[0];
      assert PartOfLong(starts, end, o, p, r);
    } else {
      assert starts[r + 0] == o + marks[0];
      assert starts[r + recs] == o + marks[recs];
    }
  }

  lemma EmitAligned(ps: seq<Piece>, marks: seq<nat>, starts: seq<nat>, end: nat, size: nat, recs: nat, p: Piece)
    requires Core(ps, marks, starts, end) && recs <= |marks|
    requires marks == [] || (marks[0] == 0 && end >= |Content(ps)| + MAX_CHUNK)
    requires |marks| <= 1 ==> recs == |marks|
    requires |marks| > 1 ==> 0 < recs < |marks| && marks[recs] == size
    requires |p.data| == size && p.recs == recs
    requires Before(starts, |Content(ps)|, Records(ps)) && Before(starts, |Content(ps)| + size, Records(ps) + recs)
    ensures AllAligned(starts, end, ps + [p])
  {
    EmitPiece(ps, marks, starts, end, size, recs, p);
    AlignedSnoc(starts, end, ps, p);
  }

  /** With no mark left, the record that goes on is long already. */
  lemma LastIsLong(ps: seq<Piece>, marks: seq<nat>, starts: seq<nat>, end: nat)
    requires Core(ps, marks, starts, end) && |marks| <= 1
    requires marks == [] || (marks[0] == 0 && end >= |Content(ps)| + MAX_CHUNK)
    ensures end - starts[|starts| - 1] >= MAX_CHUNK
  {
    if |marks| == 1 {
      assert starts[Records(ps) + 0] == |Content(ps)| + marks[0];
    }
  }

  lemma EmitCore(ps: seq<Piece>, marks: seq<nat>, starts: seq<nat>, end: nat, size: nat, recs: nat, p: Piece)
    requires Core(ps, marks, starts, end) && recs <= |marks|
    requires marks == [] || (marks[0] == 0 && end >= |Content(ps)| + MAX_CHUNK)
    requires |marks| <= 1 ==> recs == |marks|
    requires |marks| > 1 ==> 0 < recs < |marks| && marks[recs] == size
    requires |p.data| == size && p.recs == recs && PieceOk(p)
    requires forall i :: 0 <= i < recs ==> marks[i] < size
    requires forall i :: recs <= i < |marks| ==> size <= marks[i]
    ensures Core(ps + [p], Shift(marks, recs, size), starts, end)
  {
    SnocPiece(ps, p);
    MarksAfter(starts, marks, |Content(ps)|, Records(ps), size, recs, |Content(ps + [p])|, Records(ps + [p]));
    EmitAligned(ps, marks, starts, end, size, recs, p);
    if |marks| <= 1 {
      LastIsLong(ps, marks, starts, end);
    }
  }

  lemma EmitInv(s: State)
    requires 0 < |s.pending| && Inv(s, MAX_CHUNK) && (|s.pending| == MAX_CHUNK || s.marks == [])
    ensures Inv(Emit(s), MAX_CHUNK) && Total(Emit(s)) == Total(s)
  {
    var size, recs, p := EmitParts(s);
    EmitCore(s.pieces, s.marks, s.starts, Total(s), size, recs, p);
  }

  /** Records are not empty: no more marks than bytes before a cut. */
  lemma {:induction false} IncreasingCount(marks: seq<nat>, n: nat, size: nat)
    requires n <= |marks| && (forall i, j :: 0 <= i < j < |marks| ==> marks[i] < marks[j])
    requires n > 0 ==> marks[n - 1] < size
    ensures n <= size
  {
    if n > 0 {
      if n > 1 { assert marks[n - 2] < marks[n - 1]; }
      IncreasingCount(marks, n - 1, marks[n - 1]);
    }
  }

  lemma Feed1Inv(s: State, b: byte)
    requires Inv(s, MAX_CHUNK - 1)
    ensures Inv(Feed1(s, b), MAX_CHUNK - 1)
  {
    var s' := s.(pending := s.pending + [b]);
    AlignedGrows(s.starts, Total(s), s.pieces, s.starts, Total(s'));
    if |s'.pending| == MAX_CHUNK {
      EmitInv(s');
    }
  }

  lemma MarkInv(s: State)
    requires Inv(s, MAX_CHUNK - 1) && CanMark(s)
    ensures Inv(Mark(s), MAX_CHUNK - 1)
  {
    if s.marks == [] && 0 < |s.pending| {
      EmitInv(s);
      AppendMarkInv(Emit(s));
    } else {
      AppendMarkInv(s);
    }
  }

  lemma AppendMark(starts: seq<nat>, marks: seq<nat>, o: nat, r: nat, avail: nat)
    requires Increasing(starts) && MarksAt(starts, marks, o, r) && MarksOk(marks, avail)
    requires if marks == [] then avail == 0 else marks[|marks| - 1] < avail
    requires r > 0 || marks != []
    ensures Increasing(starts + [o + avail]) && MarksOk(marks + [avail], avail)
    ensures MarksAt(starts + [o + avail], marks + [avail], o, r)
  {
    var n := |marks|;
    if n > 0 {
      assert starts[r + (n - 1)] == o + marks[n - 1];
      assert forall i :: 0 <= i < n - 1 ==> marks[i] < marks[n - 1];
    }
    var last := |starts| - 1;
    assert starts[last] < o + avail;
    assert forall i :: 0 <= i < last ==> starts[i] < starts[last];
  }

  lemma AppendMarkCore(ps: seq<Piece>, marks: seq<nat>, starts: seq<nat>, avail: nat)
    requires Core(ps, marks, starts, |Content(ps)| + avail) && MarksOk(marks, avail)
    requires if marks == [] then avail == 0 else marks[|marks| - 1] < avail
    ensures var end := |Content(ps)| + avail;
            Core(ps, marks + [avail], starts + [end], end) && MarksOk(marks + [avail], avail)
  {
    var end := |Content(ps)| + avail;
    AppendMark(starts, marks, |Content(ps)|, Records(ps), avail);
    AlignedGrows(starts, end, ps, starts + [end], end);
  }

  lemma AppendMarkInv(s: State)
    requires Inv(s, MAX_CHUNK - 1) && CanMark(s) && (s.marks == [] ==> s.pending == [])
    ensures Inv(s.(marks := s.marks + [|s.pending|], starts := s.starts + [Total(s)]), MAX_CHUNK - 1)
  {
    AppendMarkCore(s.pieces, s.marks, s.starts, |s.pending|);
  }

  // ----- which records a chunk holds bytes of -----

  /** The bytes of an aligned chunk belong to the records that start in it, or, if none does, to
      the one record before. */
  lemma PieceHolds(bounds: seq<nat>, end: nat, ofs: nat, p: Piece, first: nat, q: nat)
    requires Increasing(bounds) && bounds[|bounds| - 1] == end && q + 1 < |bounds|
    requires PieceAligned(bounds, end, ofs, p, first) && 0 < |p.data|
    ensures bounds[q] < ofs + |p.data| && ofs < bounds[q + 1] <==>
            first <= q < first + p.recs || (p.recs == 0 && first == q + 1)
  {
  }
}
