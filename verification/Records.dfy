/** Whole runs of the chunker: content, record starts, and the records of the finished stream. */
module RecordRuns {
  import opened Bytes
  import opened KeyTree
  import opened Chunker
  import opened ChunkerRuns
  import opened Alignment
  import opened Build

  function Stream(s: State): bytes { Content(s.pieces) + s.pending }

  function Written(ops: seq<Op>): bytes {
    if ops == [] then [] else (if ops[0].Write? then ops[0].data else []) + Written(ops[1..])
  }

  /** The stream offsets at which marks are made, when `ofs` bytes went before. */
  function MarkOffsets(ops: seq<Op>, ofs: nat): seq<nat> {
    if ops == [] then []
    else if ops[0].Write? then MarkOffsets(ops[1..], ofs + |ops[0].data|)
    else [ofs] + MarkOffsets(ops[1..], ofs)
  }

  // ----- what one step does to the stream -----

  lemma EmitStream(s: State)
    requires 0 < |s.pending| && Shape(s, MAX_CHUNK)
    ensures Stream(Emit(s)) == Stream(s)
  {
    var size, recs, p := EmitParts(s);
    assert s.pending == s.pending[..size] + s.pending[size..];
    Assoc(Content(s.pieces), s.pending[..size], s.pending[size..]);
  }

  lemma {:induction false} FeedStream(s: State, d: bytes)
    requires Ready(s)
    ensures Stream(Feed(s, d)) == Stream(s) + d && Feed(s, d).starts == s.starts
  {
    if d == [] {
      assert Stream(s) + d == Stream(s);
    } else {
      var n := |d| - 1;
      var s' := Feed(s, d[..n]);
      FeedStream(s, d[..n]);
      Feed1Stream(s', d[n]);
      assert d == d[..n] + [d[n]];
      Assoc(Stream(s), d[..n], [d[n]]);
    }
  }

  lemma Feed1Stream(s: State, b: byte)
    requires Ready(s)
    ensures Stream(Feed1(s, b)) == Stream(s) + [b] && Feed1(s, b).starts == s.starts
  {
    var s' := s.(pending := s.pending + [b]);
    Assoc(Content(s.pieces), s.pending, [b]);
    if |s'.pending| == MAX_CHUNK {
      EmitStream(s');
    }
  }

  lemma MarkStream(s: State)
    requires Ready(s) && CanMark(s)
    ensures Stream(Mark(s)) == Stream(s) && Mark(s).starts == s.starts + [|Stream(s)|]
  {
    if s.marks == [] && 0 < |s.pending| {
      EmitStream(s);
    }
  }

  /** The first operation of a run, a write or a mark. */
  lemma WriteStep(s: State, ops: seq<Op>) returns (s': State)
    requires Ready(s) && ops != [] && ops[0].Write?
    ensures Ready(s') && Run(s, ops) == Run(s', ops[1..])
    ensures Stream(s') == Stream(s) + ops[0].data && s'.starts == s.starts
  {
    s' := Feed(s, ops[0].data);
    FeedStream(s, ops[0].data);
  }

  lemma MarkStep(s: State, ops: seq<Op>) returns (s': State)
    requires Ready(s) && ops != [] && ops[0].MarkRecord? && Run(s, ops).Some?
    ensures Ready(s') && Run(s, ops) == Run(s', ops[1..])
    ensures Stream(s') == Stream(s) && s'.starts == s.starts + [|Stream(s)|]
  {
    s' := Mark(s);
    MarkStream(s);
  }

  /** After a run the stream is everything written. */
  lemma {:induction false} RunStream(s: State, ops: seq<Op>)
    requires Ready(s) && Run(s, ops).Some?
    ensures Stream(Run(s, ops).value) == Stream(s) + Written(ops)
    decreases |ops|
  {
    if ops == [] {
      Nothing(Stream(s));
    } else if ops[0].Write? {
      var s' := WriteStep(s, ops);
      RunStream(s', ops[1..]);
      Assoc(Stream(s), ops[0].data, Written(ops[1..]));
    } else {
      var s' := MarkStep(s, ops);
      RunStream(s', ops[1..]);
      Nothing(Written(ops[1..]));
    }
  }

  /** The record starts are where the marks were made. */
  lemma {:induction false} RunStarts(s: State, ops: seq<Op>, ofs: nat)
    requires Ready(s) && Run(s, ops).Some? && ofs == |Stream(s)|
    ensures Run(s, ops).value.starts == s.starts + MarkOffsets(ops, ofs)
    decreases |ops|
  {
    if ops == [] {
      Nothing(s.starts);
    } else if ops[0].Write? {
      var s' := WriteStep(s, ops);
      RunStarts(s', ops[1..], ofs + |ops[0].data|);
      AfterWrite(s.starts, ops, ofs);
    } else {
      var s' := MarkStep(s, ops);
      RunStarts(s', ops[1..], ofs);
      AfterMark(s.starts, ops, ofs);
    }
  }

  lemma AfterWrite(starts: seq<nat>, ops: seq<Op>, ofs: nat)
    requires ops != [] && ops[0].Write?
    ensures starts + MarkOffsets(ops[1..], ofs + |ops[0].data|) == starts + MarkOffsets(ops, ofs)
  {
  }

  lemma AfterMark(starts: seq<nat>, ops: seq<Op>, ofs: nat)
    requires ops != [] && ops[0].MarkRecord?
    ensures (starts + [ofs]) + MarkOffsets(ops[1..], ofs) == starts + MarkOffsets(ops, ofs)
  {
    Assoc(starts, [ofs], MarkOffsets(ops[1..], ofs));
  }

  lemma {:induction false} FeedInv(s: State, d: bytes)
    requires Inv(s, MAX_CHUNK - 1)
    ensures Inv(Feed(s, d), MAX_CHUNK - 1)
  {
    if d != [] {
      FeedInv(s, d[..|d| - 1]);
      Feed1Inv(Feed(s, d[..|d| - 1]), d[|d| - 1]);
    }
  }

  lemma StartInv()
    ensures Inv(START, MAX_CHUNK - 1)
  {
  }

  lemma {:induction false} RunInv(s: State, ops: seq<Op>)
    requires Inv(s, MAX_CHUNK - 1) && Run(s, ops).Some?
    ensures Inv(Run(s, ops).value, MAX_CHUNK - 1)
    decreases |ops|
  {
    if ops != [] {
      if ops[0].Write? {
        FeedInv(s, ops[0].data);
        RunInv(Feed(s, ops[0].data), ops[1..]);
      } else {
        MarkInv(s);
        RunInv(Mark(s), ops[1..]);
      }
    }
  }

  // ----- the finished stream -----

  /** The record boundaries of the finished stream: a mark at the very end starts no record. */
  function Bounds(starts: seq<nat>, end: nat): seq<nat> {
    if starts != [] && starts[|starts| - 1] == end then starts else starts + [end]
  }

  /** Every chunk is aligned and the records are those between the boundaries. */
  ghost predicate Finished(ps: seq<Piece>, bounds: seq<nat>, end: nat) {
    PiecesOk(ps) && Increasing(bounds) && bounds[|bounds| - 1] == end == |Content(ps)| &&
    Records(ps) == |bounds| - 1 && AllAligned(bounds, end, ps)
  }

  lemma FinishedIfEmpty(ps: seq<Piece>, marks: seq<nat>, starts: seq<nat>)
    requires Core(ps, marks, starts, |Content(ps)|) && MarksOk(marks, 0)
    ensures Finished(ps, Bounds(starts, |Content(ps)|), |Content(ps)|)
  {
    var r, o := Records(ps), |Content(ps)|;
    AlignedGrows(starts, o, ps, Bounds(starts, o), o);
    if marks != [] {
      IncreasingCount(marks, |marks|, 1);
      assert starts[r + 0] == o + marks[0];
    }
    assert forall i :: 0 <= i < |starts| - 1 ==> starts[i] < starts[|starts| - 1];
  }

  lemma LastWhole(starts: seq<nat>, marks: seq<nat>, o: nat, r: nat, p: Piece)
    requires marks != [] && MarksOk(marks, |p.data|) && PieceOk(p) && MarksAt(starts, marks, o, r)
    requires p.recs == if marks[|marks| - 1] == |p.data| then |marks| - 1 else |marks|
    ensures var bounds := Bounds(starts, o + |p.data|);
            Whole(bounds, o, p, r) && r + p.recs == |bounds| - 1
  {
    assert starts[r + 0] == o + marks[0];
    assert starts[r + (|marks| - 1)] == o + marks[|marks| - 1];
  }

  lemma LastAligned(bounds: seq<nat>, end: nat, ps: seq<Piece>, p: Piece)
    requires AllAligned(bounds, end, ps) && end == |Content(ps)| + |p.data|
    requires Before(bounds, |Content(ps)|, Records(ps)) && Before(bounds, end, Records(ps) + p.recs)
    requires Whole(bounds, |Content(ps)|, p, Records(ps)) && Records(ps) + p.recs == |bounds| - 1
    requires PiecesOk(ps) && PieceOk(p) && Increasing(bounds) && bounds[|bounds| - 1] == end
    ensures Finished(ps + [p], bounds, end)
  {
    SnocPiece(ps, p);
    AlignedSnoc(bounds, end, ps, p);
  }

  lemma LastChunk(ps: seq<Piece>, marks: seq<nat>, starts: seq<nat>, p: Piece, end: nat, bounds: seq<nat>)
    requires marks != [] && MarksOk(marks, |p.data|) && PieceOk(p)
    requires end == |Content(ps)| + |p.data| && Core(ps, marks, starts, end)
    requires p.recs == if marks[|marks| - 1] == |p.data| then |marks| - 1 else |marks|
    requires bounds == Bounds(starts, end)
    ensures Finished(ps + [p], bounds, end)
  {
    AlignedGrows(starts, end, ps, bounds, end);
    LastBounds(starts, marks, |Content(ps)|, Records(ps), p, bounds);
    LastAligned(bounds, end, ps, p);
  }

  lemma BoundsBefore(starts: seq<nat>, marks: seq<nat>, o: nat, r: nat, avail: nat)
    requires MarksAt(starts, marks, o, r) && MarksOk(marks, avail) && marks != []
    requires Increasing(starts) && 0 < avail
    ensures var bounds, recs := Bounds(starts, o + avail), if marks[|marks| - 1] == avail then |marks| - 1 else |marks|;
            Before(bounds, o, r) && Before(bounds, o + avail, r + recs) && Increasing(bounds)
  {
    var n := |marks|;
    assert starts[r + (n - 1)] == o + marks[n - 1];
    forall i | r <= i < |starts| ensures o <= starts[i] <= o + avail {
      assert starts[r + (i - r)] == o + marks[i - r];
    }
    assert forall i :: 0 <= i < |starts| - 1 ==> starts[i] < starts[|starts| - 1];
  }

  lemma LastBounds(starts: seq<nat>, marks: seq<nat>, o: nat, r: nat, p: Piece, bounds: seq<nat>)
    requires MarksAt(starts, marks, o, r) && MarksOk(marks, |p.data|) && marks != []
    requires Increasing(starts) && PieceOk(p) && bounds == Bounds(starts, o + |p.data|)
    requires p.recs == if marks[|marks| - 1] == |p.data| then |marks| - 1 else |marks|
    ensures Before(bounds, o, r) && Before(bounds, o + |p.data|, r + p.recs) && Increasing(bounds)
    ensures Whole(bounds, o, p, r) && r + p.recs == |bounds| - 1
  {
    BoundsBefore(starts, marks, o, r, |p.data|);
    LastWhole(starts, marks, o, r, p);
  }

  /** The last chunk, when a record begins in it. */
  lemma FlushRest(s: State)
    requires Inv(s, MAX_CHUNK - 1) && s.pending != [] && s.marks != []
    ensures Finished(Emit(s).pieces, Bounds(s.starts, Total(s)), Total(s))
  {
    var size, recs, p := EmitParts(s);
    assert s.pending[..size] == s.pending;
    LastChunk(s.pieces, s.marks, s.starts, p, Total(s), Bounds(s.starts, Total(s)));
  }

  /** Flushing the rest finishes the stream: the chunks concatenate to it, and every chunk is
      either whole records or a part of one long record. */
  lemma FlushFinishes(s: State)
    requires Inv(s, MAX_CHUNK - 1)
    ensures Content(Flush(s).pieces) == Stream(s)
    ensures Finished(Flush(s).pieces, Bounds(s.starts, Total(s)), Total(s))
  {
    if s.pending == [] {
      assert Content(s.pieces) + [] == Content(s.pieces);
      FinishedIfEmpty(s.pieces, s.marks, s.starts);
    } else {
      var r := Emit(s);
      EmitStream(s);
      assert Content(r.pieces) + [] == Content(r.pieces);
      if s.marks == [] {
        EmitInv(s);
        FinishedIfEmpty(r.pieces, r.marks, r.starts);
      } else {
        FlushRest(s);
      }
    }
  }
}
