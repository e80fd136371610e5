/** Where a whole run cuts its stream, said of the stream and its record boundaries alone: every
    chunk ends at the one place that its beginning, the boundaries and the bytes demand. */
module CutRuns {
  import opened Bytes
  import opened OpaqueMeta
  import opened KeyTree
  import opened Build
  import opened Chunker
  import opened ChunkerRuns
  import opened Alignment
  import opened RecordRuns
  import opened Coded
  import opened RoundTrip
  import opened RecordReads
  import Rolling

  // ----- the rule -----

  /** No boundary lies strictly between the two places. */
  ghost predicate NoBound(bounds: seq<nat>, lo: nat, hi: nat) {
    forall i :: 0 <= i < |bounds| ==> !(lo < bounds[i] < hi)
  }

  /** The value of the minimum-size slab before a place. */
  function ValueAt(w: bytes, e: nat): int
    requires MIN_CHUNK <= e <= |w|
  {
    Rolling.Slab(w, e - MIN_CHUNK, e)
  }

  /** `e` has a lower value than `x`, or the same one behind it. */
  predicate Beats(w: bytes, e: nat, x: nat)
    requires MIN_CHUNK <= e <= |w| && MIN_CHUNK <= x <= |w|
  {
    ValueAt(w, e) <= ValueAt(w, x) && (e < x ==> ValueAt(w, e) < ValueAt(w, x))
  }

  /** The best of all places between the minimum and the maximum size. */
  ghost predicate BestPlace(w: bytes, o: nat, e: nat)
    requires o + MAX_CHUNK <= |w|
  {
    o + MIN_CHUNK <= e <= o + MAX_CHUNK && forall x :: o + MIN_CHUNK <= x <= o + MAX_CHUNK ==> Beats(w, e, x)
  }

  /** The best boundary from the minimum size on. */
  ghost predicate BestBound(w: bytes, bounds: seq<nat>, o: nat, e: nat)
    requires o + MAX_CHUNK <= |w|
  {
    e in bounds && o + MIN_CHUNK <= e < o + MAX_CHUNK &&
    forall x :: x in bounds && o + MIN_CHUNK <= x < o + MAX_CHUNK ==> Beats(w, e, x)
  }

  /** The last boundary before the minimum size. */
  ghost predicate LastBound(bounds: seq<nat>, o: nat, e: nat) {
    e in bounds && o < e < o + MIN_CHUNK && NoBound(bounds, e, o + MIN_CHUNK)
  }

  /** How a chunk of a full buffer that begins at `o` ends. */
  ghost predicate FullCut(w: bytes, bounds: seq<nat>, o: nat, e: nat)
    requires o + MAX_CHUNK <= |w|
  {
    if NoBound(bounds, o, o + MAX_CHUNK) then BestPlace(w, o, e)
    else if NoBound(bounds, o + MIN_CHUNK - 1, o + MAX_CHUNK) then LastBound(bounds, o, e)
    else BestBound(w, bounds, o, e)
  }

  /** The chunk of the stream `w` that begins at `o` ends at `e`. A chunk that continues a record
      goes on to the next boundary if that is near; the last one goes on to the end. */
  ghost predicate WellCut(w: bytes, bounds: seq<nat>, o: nat, e: nat) {
    if o !in bounds && !NoBound(bounds, o, o + MAX_CHUNK) then e in bounds && o < e && NoBound(bounds, o, e)
    else if |w| < o + MAX_CHUNK then e == |w|
    else FullCut(w, bounds, o, e)
  }

  lemma BeatsUnique(w: bytes, e: nat, x: nat)
    requires MIN_CHUNK <= e <= |w| && MIN_CHUNK <= x <= |w| && Beats(w, e, x) && Beats(w, x, e)
    ensures e == x
  {
  }

  lemma NextUnique(bounds: seq<nat>, o: nat, e: nat, x: nat)
    requires e in bounds && x in bounds && o < e && o < x && NoBound(bounds, o, e) && NoBound(bounds, o, x)
    ensures e == x
  {
    var i :| 0 <= i < |bounds| && bounds[i] == e;
    var j :| 0 <= j < |bounds| && bounds[j] == x;
  }

  lemma LastUnique(bounds: seq<nat>, o: nat, e: nat, x: nat)
    requires LastBound(bounds, o, e) && LastBound(bounds, o, x)
    ensures e == x
  {
    var i :| 0 <= i < |bounds| && bounds[i] == e;
    var j :| 0 <= j < |bounds| && bounds[j] == x;
  }

  /** There is one such place. */
  lemma WellCutUnique(w: bytes, bounds: seq<nat>, o: nat, e: nat, x: nat)
    requires WellCut(w, bounds, o, e) && WellCut(w, bounds, o, x)
    ensures e == x
  {
    if o !in bounds && !NoBound(bounds, o, o + MAX_CHUNK) {
      NextUnique(bounds, o, e, x);
    } else if |w| >= o + MAX_CHUNK {
      if !NoBound(bounds, o, o + MAX_CHUNK) && NoBound(bounds, o + MIN_CHUNK - 1, o + MAX_CHUNK) {
        LastUnique(bounds, o, e, x);
      } else {
        BeatsUnique(w, e, x);
      }
    }
  }

  // ----- windows -----

  lemma {:induction false} FreshWindow(w: bytes, p: bytes, o: nat, i: nat, j: nat)
    requires i <= j <= |p| && o + |p| <= |w| && p == w[o..o + |p|]
    ensures Rolling.Fresh(p, i, j) == Rolling.Fresh(w, o + i, o + j)
    decreases j - i
  {
    if i < j {
      FreshWindow(w, p, o, i, j - 1);
      assert p[j - 1] == w[o + (j - 1)];
    }
  }

  lemma SlabWindow(w: bytes, p: bytes, o: nat, e: nat)
    requires MIN_CHUNK <= e <= |p| && o + |p| <= |w| && p == w[o..o + |p|]
    ensures Rolling.Slab(p, e - MIN_CHUNK, e) == ValueAt(w, o + e)
  {
    FreshWindow(w, p, o, e - MIN_CHUNK, e);
  }

  lemma ValueGrows(w: bytes, more: bytes, e: nat)
    requires MIN_CHUNK <= e <= |w|
    ensures ValueAt(w + more, e) == ValueAt(w, e)
  {
    assert (w + more)[0..0 + |w|] == w;
    FreshWindow(w + more, w, 0, e - MIN_CHUNK, e);
  }

  // ----- one cut -----

  /** With one mark at most a full buffer is cut at the best place. */
  lemma ScanCut(w: bytes, o: nat, p: bytes)
    requires |p| == MAX_CHUNK && o + MAX_CHUNK <= |w| && p == w[o..o + |p|]
    ensures BestPlace(w, o, o + Rolling.Scanned(p, MIN_CHUNK, MAX_CHUNK))
  {
    var size := Rolling.Scanned(p, MIN_CHUNK, MAX_CHUNK);
    var e := o + size;
    SlabWindow(w, p, o, size);
    forall x | o + MIN_CHUNK <= x <= o + MAX_CHUNK ensures Beats(w, e, x) {
      Rolling.ScannedIsLargestLowest(p, MIN_CHUNK, MAX_CHUNK, x - o);
      SlabWindow(w, p, o, x - o);
    }
  }

  /** Boundaries from `o` on are the marks. */
  lemma BoundIsMark(starts: seq<nat>, marks: seq<nat>, o: nat, r: nat, i: nat) returns (j: nat)
    requires MarksAt(starts, marks, o, r) && i < |starts| && starts[i] >= o
    ensures j < |marks| && starts[i] == o + marks[j]
  {
    j := i - r;
    assert starts[r + j] == o + marks[j];
  }

  lemma MarkIsBound(starts: seq<nat>, marks: seq<nat>, o: nat, r: nat, j: nat)
    requires MarksAt(starts, marks, o, r) && j < |marks|
    ensures o + marks[j] in starts
  {
    assert starts[r + j] == o + marks[j];
  }

  lemma FewMarks(starts: seq<nat>, marks: seq<nat>, o: nat, r: nat, hi: nat)
    requires MarksAt(starts, marks, o, r) && |marks| <= 1 && (marks != [] ==> marks[0] == 0)
    ensures NoBound(starts, o, hi)
  {
    forall i | 0 <= i < |starts| ensures !(o < starts[i] < hi) {
      if starts[i] >= o {
        var j := BoundIsMark(starts, marks, o, r, i);
      }
    }
  }

  lemma LowMarks(p: bytes, starts: seq<nat>, marks: seq<nat>, o: nat, r: nat)
    requires MarksAt(starts, marks, o, r) && MarksOk(marks, |p|) && |marks| > 1
    requires marks[|marks| - 1] < MIN_CHUNK
    ensures !NoBound(starts, o, o + MAX_CHUNK) && NoBound(starts, o + MIN_CHUNK - 1, o + MAX_CHUNK)
    ensures LastBound(starts, o, o + marks[|marks| - 1])
  {
    var n := |marks| - 1;
    assert starts[r + n] == o + marks[n] && marks[0] < marks[n];
    forall i | 0 <= i < |starts| ensures starts[i] <= o + marks[n] {
      if starts[i] >= o {
        var j := BoundIsMark(starts, marks, o, r, i);
      }
    }
  }

  /** The last mark is a boundary in the buffer. */
  lemma LastMarkInside(starts: seq<nat>, marks: seq<nat>, o: nat, r: nat, avail: nat)
    requires MarksAt(starts, marks, o, r) && MarksOk(marks, avail) && |marks| > 1
    requires MIN_CHUNK <= marks[|marks| - 1] < MAX_CHUNK
    ensures !NoBound(starts, o + MIN_CHUNK - 1, o + MAX_CHUNK) && !NoBound(starts, o, o + MAX_CHUNK)
  {
    assert starts[r + (|marks| - 1)] == o + marks[|marks| - 1];
  }

  lemma BoundBeaten(w: bytes, p: bytes, starts: seq<nat>, marks: seq<nat>, o: nat, r: nat, x: nat)
    requires |p| == MAX_CHUNK && o + MAX_CHUNK <= |w| && p == w[o..o + |p|]
    requires MarksAt(starts, marks, o, r) && MarksOk(marks, |p|) && x in starts && o + MIN_CHUNK <= x
    ensures var size := Cut(p, marks).0; MIN_CHUNK <= size <= |p| && x <= |w| && Beats(w, o + size, x)
  {
    var i :| 0 <= i < |starts| && starts[i] == x;
    var j := BoundIsMark(starts, marks, o, r, i);
    assert marks[0] == 0;
    BestMarkBeats(w, p, marks, o, j);
  }

  lemma EligibleMarks(w: bytes, p: bytes, starts: seq<nat>, marks: seq<nat>, o: nat, r: nat)
    requires |p| == MAX_CHUNK && o + MAX_CHUNK <= |w| && p == w[o..o + |p|]
    requires MarksAt(starts, marks, o, r) && MarksOk(marks, |p|) && |marks| > 1
    requires MIN_CHUNK <= marks[|marks| - 1] < MAX_CHUNK
    ensures BestBound(w, starts, o, o + Cut(p, marks).0)
  {
    var (size, recs) := Cut(p, marks);
    CutPicksLowest(p, marks, |marks| - 1);
    LaterMark(marks, recs);
    MarkIsBound(starts, marks, o, r, recs);
    forall x | x in starts && o + MIN_CHUNK <= x < o + MAX_CHUNK ensures Beats(w, o + size, x) {
      BoundBeaten(w, p, starts, marks, o, r, x);
    }
  }

  lemma LaterMark(marks: seq<nat>, i: nat)
    requires Increasing(marks) && i < |marks|
    ensures marks[i] <= marks[|marks| - 1]
  {
  }

  lemma EarlierMark(marks: seq<nat>, i: nat, j: nat)
    requires Increasing(marks) && i < |marks| && j < |marks| && marks[i] < marks[j]
    ensures i < j
  {
  }

  lemma BestMarkBeats(w: bytes, p: bytes, marks: seq<nat>, o: nat, j: nat)
    requires |p| == MAX_CHUNK && o + MAX_CHUNK <= |w| && p == w[o..o + |p|]
    requires MarksOk(marks, |p|) && 1 <= j < |marks| && marks[j] >= MIN_CHUNK
    ensures var size := Cut(p, marks).0; MIN_CHUNK <= size <= |p| && Beats(w, o + size, o + marks[j])
  {
    var (size, recs) := Cut(p, marks);
    CutPicksLowest(p, marks, j);
    SlabWindow(w, p, o, marks[j]);
    SlabWindow(w, p, o, size);
    if size < marks[j] {
      EarlierMark(marks, recs, j);
    }
  }

  /** A full buffer. */
  lemma CutIsFull(w: bytes, p: bytes, starts: seq<nat>, marks: seq<nat>, o: nat, r: nat)
    requires |p| == MAX_CHUNK && o + MAX_CHUNK <= |w| && p == w[o..o + |p|]
    requires MarksAt(starts, marks, o, r) && MarksOk(marks, |p|)
    requires marks != [] ==> marks[|marks| - 1] < MAX_CHUNK
    ensures FullCut(w, starts, o, o + Cut(p, marks).0)
    ensures NoBound(starts, o, o + MAX_CHUNK) || o in starts
  {
    if |marks| <= 1 {
      FewMarks(starts, marks, o, r, o + MAX_CHUNK);
      ScanCut(w, o, p);
    } else {
      MarkIsBound(starts, marks, o, r, 0);
      if marks[|marks| - 1] < MIN_CHUNK {
        LowMarks(p, starts, marks, o, r);
      } else {
        LastMarkInside(starts, marks, o, r, |p|);
        EligibleMarks(w, p, starts, marks, o, r);
      }
    }
  }

  // ----- runs -----

  /** A chunk that has been cut, in a stream that may go on. */
  ghost predicate CutOk(w: bytes, starts: seq<nat>, o: nat, e: nat) {
    o < e <= |w| &&
    if |w| >= o + MAX_CHUNK && (NoBound(starts, o, o + MAX_CHUNK) || o in starts) then FullCut(w, starts, o, e)
    else o !in starts && e in starts && e < o + MAX_CHUNK && NoBound(starts, o, e)
  }

  lemma SnocAt(ps: seq<Piece>, p: Piece, k: nat)
    requires k <= |ps|
    ensures CutAt(ps + [p], k) == if k < |ps| then CutAt(ps, k) else |Content(ps)|
    ensures (ps + [p])[k] == if k < |ps| then ps[k] else p
  {
    assert (ps + [p])[..k] == ps[..k];
    if k == |ps| {
      assert ps[..k] == ps;
    }
  }

  /** The beginning and the end of every chunk are in this relation. */
  ghost predicate AllStretches(ps: seq<Piece>, rel: (nat, nat) -> bool) {
    forall k :: 0 <= k < |ps| ==> StretchOk(ps, rel, k)
  }

  ghost predicate StretchOk(ps: seq<Piece>, rel: (nat, nat) -> bool, k: nat)
    requires k < |ps|
  {
    rel(CutAt(ps, k), CutAt(ps, k) + |ps[k].data|)
  }

  lemma StretchesSnoc(ps: seq<Piece>, p: Piece, rel: (nat, nat) -> bool)
    requires AllStretches(ps, rel) && rel(|Content(ps)|, |Content(ps)| + |p.data|)
    ensures AllStretches(ps + [p], rel)
  {
    forall k | 0 <= k < |ps + [p]| ensures StretchOk(ps + [p], rel, k) {
      SnocAt(ps, p, k);
      assert k < |ps| ==> StretchOk(ps, rel, k);
    }
  }

  lemma StretchesImply(ps: seq<Piece>, rel: (nat, nat) -> bool, rel': (nat, nat) -> bool)
    requires AllStretches(ps, rel) && forall o: nat, e: nat :: rel(o, e) ==> rel'(o, e)
    ensures AllStretches(ps, rel')
  {
    forall k | 0 <= k < |ps| ensures StretchOk(ps, rel', k) {
      assert StretchOk(ps, rel, k);
    }
  }

  ghost function CutRel(w: bytes, starts: seq<nat>): (nat, nat) -> bool { (o: nat, e: nat) => CutOk(w, starts, o, e) }

  ghost predicate AllCut(w: bytes, starts: seq<nat>, ps: seq<Piece>) { AllStretches(ps, CutRel(w, starts)) }

  lemma NoBoundGrows(starts: seq<nat>, x: nat, lo: nat, hi: nat)
    requires x >= hi
    ensures NoBound(starts + [x], lo, hi) <==> NoBound(starts, lo, hi)
  {
    if NoBound(starts + [x], lo, hi) {
      forall i | 0 <= i < |starts| ensures !(lo < starts[i] < hi) {
        assert starts[i] == (starts + [x])[i];
      }
    }
  }

  lemma FullCutGrows(w: bytes, more: bytes, starts: seq<nat>, o: nat, e: nat)
    requires o + MAX_CHUNK <= |w| && FullCut(w, starts, o, e)
    ensures FullCut(w + more, starts, o, e)
  {
    forall x | MIN_CHUNK <= x <= |w| ensures ValueAt(w + more, x) == ValueAt(w, x) {
      ValueGrows(w, more, x);
    }
    if NoBound(starts, o, o + MAX_CHUNK) {
      forall x | o + MIN_CHUNK <= x <= o + MAX_CHUNK ensures Beats(w + more, e, x) {
        assert Beats(w, e, x);
      }
    } else if !NoBound(starts, o + MIN_CHUNK - 1, o + MAX_CHUNK) {
      forall x | x in starts && o + MIN_CHUNK <= x < o + MAX_CHUNK ensures Beats(w + more, e, x) {
        assert Beats(w, e, x);
      }
    }
  }

  lemma FullCutMarks(w: bytes, starts: seq<nat>, x: nat, o: nat, e: nat)
    requires o + MAX_CHUNK <= |w| <= x && FullCut(w, starts, o, e)
    ensures FullCut(w, starts + [x], o, e)
  {
    NoBoundGrows(starts, x, o, o + MAX_CHUNK);
    NoBoundGrows(starts, x, o + MIN_CHUNK - 1, o + MAX_CHUNK);
    if e < o + MIN_CHUNK {
      NoBoundGrows(starts, x, e, o + MIN_CHUNK);
    }
  }

  lemma TailGrows(w: bytes, more: bytes, starts: seq<nat>, o: nat, e: nat)
    requires o !in starts && e in starts && e < o + MAX_CHUNK && o < e
    ensures !NoBound(starts, o, o + MAX_CHUNK)
  {
    var i :| 0 <= i < |starts| && starts[i] == e;
  }

  lemma CutGrows(w: bytes, more: bytes, starts: seq<nat>, o: nat, e: nat)
    requires CutOk(w, starts, o, e)
    ensures CutOk(w + more, starts, o, e)
  {
    if |w| >= o + MAX_CHUNK && (NoBound(starts, o, o + MAX_CHUNK) || o in starts) {
      FullCutGrows(w, more, starts, o, e);
    } else {
      TailGrows(w, more, starts, o, e);
    }
  }

  lemma CutMarks(w: bytes, starts: seq<nat>, o: nat, e: nat)
    requires CutOk(w, starts, o, e)
    ensures CutOk(w, starts + [|w|], o, e)
  {
    if |w| >= o + MAX_CHUNK && (NoBound(starts, o, o + MAX_CHUNK) || o in starts) {
      FullCutMarks(w, starts, |w|, o, e);
      NoBoundGrows(starts, |w|, o, o + MAX_CHUNK);
    } else {
      NoBoundGrows(starts, |w|, o, e);
      TailGrows(w, [], starts + [|w|], o, e);
    }
  }

  lemma AllCutGrows(w: bytes, more: bytes, starts: seq<nat>, ps: seq<Piece>)
    requires AllCut(w, starts, ps)
    ensures AllCut(w + more, starts, ps)
  {
    var rel, rel' := CutRel(w, starts), CutRel(w + more, starts);
    forall o: nat, e: nat | rel(o, e) ensures rel'(o, e) {
      CutGrows(w, more, starts, o, e);
    }
    StretchesImply(ps, rel, rel');
  }

  lemma AllCutMarks(w: bytes, starts: seq<nat>, ps: seq<Piece>)
    requires AllCut(w, starts, ps)
    ensures AllCut(w, starts + [|w|], ps)
  {
    var rel, rel' := CutRel(w, starts), CutRel(w, starts + [|w|]);
    forall o: nat, e: nat | rel(o, e) ensures rel'(o, e) {
      CutMarks(w, starts, o, e);
    }
    StretchesImply(ps, rel, rel');
  }

  lemma AllCutSnoc(w: bytes, starts: seq<nat>, ps: seq<Piece>, p: Piece)
    requires AllCut(w, starts, ps) && CutOk(w, starts, |Content(ps)|, |Content(ps)| + |p.data|)
    ensures AllCut(w, starts, ps + [p])
  {
    StretchesSnoc(ps, p, CutRel(w, starts));
  }

  ghost predicate StateCut(s: State) { AllCut(Stream(s), s.starts, s.pieces) }

  lemma PendingWindow(s: State)
    ensures var o := |Content(s.pieces)|;
            o + |s.pending| == |Stream(s)| && Stream(s)[o..o + |s.pending|] == s.pending
  {
  }

  /** The chunk that a full buffer emits. */
  lemma FullChunkCut(w: bytes, p: bytes, starts: seq<nat>, marks: seq<nat>, o: nat, r: nat)
    requires |p| == MAX_CHUNK && o + MAX_CHUNK == |w| && p == w[o..o + |p|]
    requires MarksAt(starts, marks, o, r) && MarksOk(marks, |p|)
    requires marks != [] ==> marks[|marks| - 1] < MAX_CHUNK
    ensures CutOk(w, starts, o, o + Cut(p, marks).0)
  {
    CutIsFull(w, p, starts, marks, o, r);
    CutSplitsMarks(p, marks);
  }

  lemma FullEmitCut(s: State)
    requires Inv(s, MAX_CHUNK) && |s.pending| == MAX_CHUNK && StateCut(s)
    requires s.marks != [] ==> s.marks[|s.marks| - 1] < MAX_CHUNK
    ensures StateCut(Emit(s))
  {
    var size, recs, p := EmitParts(s);
    EmitStream(s);
    PendingWindow(s);
    FullChunkCut(Stream(s), s.pending, s.starts, s.marks, |Content(s.pieces)|, Records(s.pieces));
    AllCutSnoc(Stream(s), s.starts, s.pieces, p);
  }

  lemma Feed1Cut(s: State, b: byte)
    requires Inv(s, MAX_CHUNK - 1) && StateCut(s)
    ensures StateCut(Feed1(s, b))
  {
    var s' := s.(pending := s.pending + [b]);
    Assoc(Content(s.pieces), s.pending, [b]);
    AllCutGrows(Stream(s), [b], s.starts, s.pieces);
    if |s'.pending| == MAX_CHUNK {
      AlignedGrows(s.starts, Total(s), s.pieces, s.starts, Total(s'));
      FullEmitCut(s');
    }
  }

  lemma {:induction false} FeedCut(s: State, d: bytes)
    requires Inv(s, MAX_CHUNK - 1) && StateCut(s)
    ensures StateCut(Feed(s, d))
  {
    if d != [] {
      FeedInv(s, d[..|d| - 1]);
      FeedCut(s, d[..|d| - 1]);
      Feed1Cut(Feed(s, d[..|d| - 1]), d[|d| - 1]);
    }
  }

  /** The tail of a long record, cut off where the next one begins. */
  lemma TailCut(w: bytes, starts: seq<nat>, o: nat, r: nat)
    requires MarksAt(starts, [], o, r) && o < |w| < o + MAX_CHUNK
    ensures CutOk(w, starts + [|w|], o, |w|)
  {
    var starts' := starts + [|w|];
    forall i | 0 <= i < |starts'| ensures starts'[i] != o && !(o < starts'[i] < |w|) {
      assert i < |starts| ==> starts'[i] == starts[i];
    }
    assert starts'[|starts|] == |w|;
  }

  lemma MarkCut(s: State)
    requires Inv(s, MAX_CHUNK - 1) && CanMark(s) && StateCut(s)
    ensures StateCut(Mark(s))
  {
    var w := Stream(s);
    AllCutMarks(w, s.starts, s.pieces);
    MarkStream(s);
    if s.marks == [] && 0 < |s.pending| {
      var size, recs, p := EmitParts(s);
      TailCut(w, s.starts, |Content(s.pieces)|, Records(s.pieces));
      AllCutSnoc(w, s.starts + [|w|], s.pieces, p);
    }
  }

  lemma {:induction false} RunCut(s: State, ops: seq<Op>)
    requires Inv(s, MAX_CHUNK - 1) && StateCut(s) && Run(s, ops).Some?
    ensures StateCut(Run(s, ops).value)
    decreases |ops|
  {
    if ops != [] {
      if ops[0].Write? {
        FeedInv(s, ops[0].data);
        FeedCut(s, ops[0].data);
        RunCut(Feed(s, ops[0].data), ops[1..]);
      } else {
        MarkInv(s);
        MarkCut(s);
        RunCut(Mark(s), ops[1..]);
      }
    }
  }

  // ----- the finished stream -----

  ghost function WellRel(w: bytes, bounds: seq<nat>): (nat, nat) -> bool {
    (o: nat, e: nat) => WellCut(w, bounds, o, e)
  }

  /** Every chunk ends where it should. */
  ghost predicate AllWellCut(w: bytes, bounds: seq<nat>, ps: seq<Piece>) { AllStretches(ps, WellRel(w, bounds)) }

  lemma CutStays(w: bytes, starts: seq<nat>, bounds: seq<nat>, o: nat, e: nat)
    requires CutOk(w, starts, o, e) && bounds == Bounds(starts, |w|)
    ensures WellCut(w, bounds, o, e)
  {
    if bounds != starts {
      CutMarks(w, starts, o, e);
    }
    if !(|w| >= o + MAX_CHUNK && (NoBound(bounds, o, o + MAX_CHUNK) || o in bounds)) {
      TailGrows(w, [], bounds, o, e);
    }
  }

  lemma AllCutStays(w: bytes, starts: seq<nat>, bounds: seq<nat>, ps: seq<Piece>)
    requires AllCut(w, starts, ps) && bounds == Bounds(starts, |w|)
    ensures AllWellCut(w, bounds, ps)
  {
    var rel, rel' := CutRel(w, starts), WellRel(w, bounds);
    forall o: nat, e: nat | rel(o, e) ensures rel'(o, e) {
      CutStays(w, starts, bounds, o, e);
    }
    StretchesImply(ps, rel, rel');
  }

  lemma AllWellCutSnoc(w: bytes, bounds: seq<nat>, ps: seq<Piece>, p: Piece)
    requires AllWellCut(w, bounds, ps) && WellCut(w, bounds, |Content(ps)|, |Content(ps)| + |p.data|)
    ensures AllWellCut(w, bounds, ps + [p])
  {
    StretchesSnoc(ps, p, WellRel(w, bounds));
  }

  /** The rest of the stream, when it does not fill the buffer. */
  lemma RestCut(w: bytes, starts: seq<nat>, marks: seq<nat>, o: nat, r: nat, bounds: seq<nat>)
    requires o < |w| < o + MAX_CHUNK && MarksAt(starts, marks, o, r) && MarksOk(marks, |w| - o)
    requires bounds == Bounds(starts, |w|) && starts != []
    ensures WellCut(w, bounds, o, |w|)
  {
    if marks == [] {
      assert bounds == starts + [|w|];
      TailCut(w, starts, o, r);
      TailGrows(w, [], bounds, o, |w|);
    } else {
      MarkIsBound(starts, marks, o, r, 0);
    }
  }

  lemma FlushCut(s: State)
    requires Inv(s, MAX_CHUNK - 1) && StateCut(s)
    ensures AllWellCut(Stream(s), Bounds(s.starts, Total(s)), Flush(s).pieces)
  {
    var w, bounds := Stream(s), Bounds(s.starts, Total(s));
    AllCutStays(w, s.starts, bounds, s.pieces);
    if s.pending != [] {
      var size, recs, p := EmitParts(s);
      RestCut(w, s.starts, s.marks, |Content(s.pieces)|, Records(s.pieces), bounds);
      AllWellCutSnoc(w, bounds, s.pieces, p);
    }
  }

  /** Over every run: each chunk of the stream ends where the bytes and the boundaries demand. */
  lemma RunWellCut(ops: seq<Op>, limit: nat)
    requires ValidRun(ops, limit)
    ensures AllWellCut(Written(ops), RecordBounds(ops), PiecesOf(ops, limit))
  {
    EndFacts(ops, limit);
    StartInv();
    RunCut(START, ops);
    assert Stream(START) == [];
    RunStarts(START, ops, 0);
    FlushCut(EndState(ops, limit));
  }

  lemma MoreLeft(ps: seq<Piece>, qs: seq<Piece>, k: nat)
    requires k < |ps| && k <= |qs| && PiecesOk(ps) && Content(ps) == Content(qs) && Content(ps[..k]) == Content(qs[..k])
    ensures k < |qs|
  {
    PrefixContent(ps, k);
    assert PieceOk(ps[k]);
    assert qs[..|qs|] == qs;
  }

  lemma SameStretch(ps: seq<Piece>, qs: seq<Piece>, k: nat)
    requires k <= |ps| && k <= |qs| && Content(ps) == Content(qs) && |Content(ps[..k])| == |Content(qs[..k])|
    ensures Content(ps[..k]) == Content(qs[..k])
  {
    FirstStretch(ps, k);
    FirstStretch(qs, k);
  }

  lemma FirstStretch(ps: seq<Piece>, k: nat)
    requires k <= |ps|
    ensures |Content(ps[..k])| <= |Content(ps)| && Content(ps)[..|Content(ps[..k])|] == Content(ps[..k])
  {
    assert ps == ps[..k] + ps[k..];
    ContentConcat(ps[..k], ps[k..]);
  }

  /** Two chunks that begin at one place end at one place. */
  ghost predicate OneEnd(rel: (nat, nat) -> bool) {
    forall o: nat, e: nat, x: nat :: rel(o, e) && rel(o, x) ==> e == x
  }

  lemma {:induction false} OneWay(ps: seq<Piece>, qs: seq<Piece>, rel: (nat, nat) -> bool, k: nat)
    requires AllStretches(ps, rel) && AllStretches(qs, rel) && OneEnd(rel) && Content(ps) == Content(qs)
    requires PiecesOk(ps) && PiecesOk(qs) && k <= |ps|
    ensures k <= |qs| && Content(ps[..k]) == Content(qs[..k])
    decreases k
  {
    if k > 0 {
      OneWay(ps, qs, rel, k - 1);
      MoreLeft(ps, qs, k - 1);
      var o := CutAt(ps, k - 1);
      assert StretchOk(ps, rel, k - 1) && StretchOk(qs, rel, k - 1);
      assert rel(o, o + |ps[k - 1].data|) && rel(o, o + |qs[k - 1].data|);
      PrefixContent(ps, k - 1);
      PrefixContent(qs, k - 1);
      SameStretch(ps, qs, k);
    }
  }

  /** So nothing but the bytes and the boundaries decides the chunks: any way to lay chunks end to
      end by this rule gives the same ones. */
  lemma OneWayToCut(w: bytes, bounds: seq<nat>, ps: seq<Piece>, qs: seq<Piece>, k: nat)
    requires AllWellCut(w, bounds, ps) && AllWellCut(w, bounds, qs) && Content(ps) == Content(qs)
    requires PiecesOk(ps) && PiecesOk(qs) && k <= |ps|
    ensures k <= |qs| && Content(ps[..k]) == Content(qs[..k])
  {
    var rel := WellRel(w, bounds);
    forall o: nat, e: nat, x: nat | rel(o, e) && rel(o, x) ensures e == x {
      WellCutUnique(w, bounds, o, e, x);
    }
    OneWay(ps, qs, rel, k);
  }
}
