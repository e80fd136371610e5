/** Where a stream with record marks is cut into data chunks, byte by byte.

    The coder's buffer handling is proved against this module: it sees the stream one byte or
    one mark at a time and keeps the whole unchunked rest as one sequence. */
module Chunker {
  import opened Bytes
  import opened KeyTree
  import Rolling

  const MIN_CHUNK: nat := 256 * 1024

  /** `starts` lists where every record so far begins in the whole stream. */
  datatype State = State(pieces: seq<Piece>, pending: bytes, marks: seq<nat>, starts: seq<nat>)

  const START := State([], [], [0], [0])

  /** Marks lie in the pending bytes, the first one at its beginning. */
  ghost predicate MarksOk(marks: seq<nat>, avail: nat) {
    (marks != [] ==> marks[0] == 0) &&
    (forall i, j :: 0 <= i < j < |marks| ==> marks[i] < marks[j]) &&
    (forall i :: 0 <= i < |marks| ==> marks[i] <= avail)
  }

  // ----- one cut -----

  /** The first mark, from the `i`-th on, that leaves a chunk of the minimum size before it. */
  function FirstEligible(marks: seq<nat>, i: nat): (k: nat)
    requires i < |marks| && marks[|marks| - 1] >= MIN_CHUNK
    ensures i <= k < |marks| && marks[k] >= MIN_CHUNK
    ensures forall j :: i <= j < k ==> marks[j] < MIN_CHUNK
    decreases |marks| - i
  {
    if marks[i] >= MIN_CHUNK then i else FirstEligible(marks, i + 1)
  }

  lemma EligibleEnds(p: bytes, marks: seq<nat>, i: nat)
    requires MarksOk(marks, |p|) && i < |marks| && marks[i] >= MIN_CHUNK
    ensures forall k :: 0 <= k < |marks[i..]| ==> MIN_CHUNK <= marks[i..][k] <= |p|
  {
    forall k | 0 <= k < |marks[i..]| ensures MIN_CHUNK <= marks[i..][k] <= |p| {
      assert marks[i..][k] == marks[i + k];
      assert k > 0 ==> marks[i] < marks[i + k];
    }
  }

  /** Size of the next chunk and how many of the marks go with it. */
  ghost function Cut(p: bytes, marks: seq<nat>): (r: (nat, nat))
    requires 0 < |p| <= MAX_CHUNK && MarksOk(marks, |p|)
  {
    var n := |marks|;
    if |p| < MAX_CHUNK then
      (|p|, if n > 0 && marks[n - 1] == |p| then n - 1 else n)
    else if n <= 1 then
      (Rolling.Scanned(p, MIN_CHUNK, MAX_CHUNK), n)
    else if marks[n - 1] < MIN_CHUNK then
      (marks[n - 1], n - 1)
    else
      var i := FirstEligible(marks, 1);
      EligibleEnds(p, marks, i);
      var k := i + Rolling.Best(p, MIN_CHUNK, marks[i..]);
      (marks[k], k)
  }

  /** A cut takes at least one byte, and exactly the marks before it; it falls on a mark or
      leaves no mark behind. */
  lemma CutSplitsMarks(p: bytes, marks: seq<nat>)
    requires 0 < |p| <= MAX_CHUNK && MarksOk(marks, |p|)
    ensures var (size, recs) := Cut(p, marks);
            0 < size <= |p| && recs <= |marks| &&
            (recs < |marks| ==> marks[recs] == size) &&
            (forall i :: 0 <= i < recs ==> marks[i] < size)
  {
    var (size, recs) := Cut(p, marks);
    var n := |marks|;
    if 0 < n && recs < n {
      assert marks[recs] == size;
      assert recs > 0;
      assert marks[0] < marks[recs];
    }
  }

  /** Among the marks that leave a chunk of the minimum size, a full buffer with such marks is cut
      at the one whose preceding slab has the lowest checksum, the last of several. */
  lemma CutPicksLowest(p: bytes, marks: seq<nat>, j: nat)
    requires |p| == MAX_CHUNK && MarksOk(marks, |p|) && 1 <= j < |marks| && marks[j] >= MIN_CHUNK
    ensures marks[|marks| - 1] >= MIN_CHUNK
    ensures var (size, recs) := Cut(p, marks);
            1 <= recs < |marks| && size == marks[recs] >= MIN_CHUNK &&
            Rolling.Slab(p, size - MIN_CHUNK, size) <= Rolling.Slab(p, marks[j] - MIN_CHUNK, marks[j]) &&
            (recs < j ==> Rolling.Slab(p, size - MIN_CHUNK, size) < Rolling.Slab(p, marks[j] - MIN_CHUNK, marks[j]))
  {
    assert j < |marks| - 1 ==> marks[j] < marks[|marks| - 1];
    var i := FirstEligible(marks, 1);
    EligibleEnds(p, marks, i);
    Rolling.BestIsLastLowest(p, MIN_CHUNK, marks[i..], j - i);
  }

  function Shift(marks: seq<nat>, recs: nat, size: nat): (r: seq<nat>)
    requires recs <= |marks| && forall i :: recs <= i < |marks| ==> marks[i] >= size
    ensures |r| == |marks| - recs
    ensures forall i :: 0 <= i < |r| ==> r[i] == marks[recs + i] - size
  {
    seq(|marks| - recs, i requires 0 <= i < |marks| - recs => marks[recs + i] - size)
  }

  ghost predicate Shape(s: State, limit: nat) {
    |s.pending| <= limit && MarksOk(s.marks, |s.pending|)
  }

  lemma CutShift(s: State)
    requires 0 < |s.pending| <= MAX_CHUNK && MarksOk(s.marks, |s.pending|)
    ensures var (size, recs) := Cut(s.pending, s.marks);
            0 < size <= |s.pending| && recs <= |s.marks| &&
            (forall i :: recs <= i < |s.marks| ==> s.marks[i] >= size) &&
            MarksOk(Shift(s.marks, recs, size), |s.pending| - size)
  {
    CutSplitsMarks(s.pending, s.marks);
    var (size, recs) := Cut(s.pending, s.marks);
    forall i | recs <= i < |s.marks| ensures s.marks[i] >= size {
      assert recs < i ==> s.marks[recs] < s.marks[i];
    }
  }

  /** `doChunk`: the first chunk of the pending bytes is done, the rest stays. */
  ghost function Emit(s: State): (r: State)
    requires 0 < |s.pending| && Shape(s, MAX_CHUNK)
    ensures |r.pending| < |s.pending| && Shape(r, MAX_CHUNK)
  {
    var (size, recs) := Cut(s.pending, s.marks);
    CutShift(s);
    State(s.pieces + [Piece(s.pending[..size], recs)], s.pending[size..],
          Shift(s.marks, recs, size), s.starts)
  }

  /** One more byte; a full buffer is cut at once. */
  ghost function Feed1(s: State, b: byte): (r: State)
    requires Shape(s, MAX_CHUNK - 1)
    ensures Shape(r, MAX_CHUNK - 1)
  {
    var s' := s.(pending := s.pending + [b]);
    if |s'.pending| == MAX_CHUNK then Emit(s') else s'
  }

  ghost function Feed(s: State, d: bytes): (r: State)
    requires Shape(s, MAX_CHUNK - 1)
    ensures Shape(r, MAX_CHUNK - 1)
  {
    if d == [] then s else Feed1(Feed(s, d[..|d| - 1]), d[|d| - 1])
  }

  function Total(s: State): nat { |Content(s.pieces)| + |s.pending| }

  /** The current record is not empty. */
  predicate CanMark(s: State) {
    s.marks == [] || s.marks[|s.marks| - 1] < |s.pending|
  }

  /** `markRecord`: a record begins here. The tail of a long record is cut off first. */
  ghost function Mark(s: State): (r: State)
    requires Shape(s, MAX_CHUNK - 1) && CanMark(s)
    ensures Shape(r, MAX_CHUNK - 1)
  {
    var s' := if s.marks == [] && 0 < |s.pending| then Emit(s) else s;
    s'.(marks := s'.marks + [|s'.pending|], starts := s.starts + [Total(s)])
  }

  /** The last chunk, if any byte is left. */
  ghost function Flush(s: State): (r: State)
    requires Shape(s, MAX_CHUNK - 1)
    ensures Shape(r, MAX_CHUNK - 1) && r.pending == []
  {
    if 0 < |s.pending| then Emit(s) else s
  }
}
