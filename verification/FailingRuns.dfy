/** Runs of the coder on which its checksums do not come out as asserted. All records have half the
    maximum chunk size, so every record becomes a chunk. */
module FailingRuns {
  import opened Bytes
  import opened OpaqueMeta
  import opened KeyTree
  import opened Levels
  import opened Build
  import opened Chunker
  import opened ChunkerRuns
  import opened RecordRuns
  import opened Alignment
  import opened Coder
  import opened RoundTrip
  import opened Checksums
  import Adler32
  import Xdr

  const HALF: nat := MAX_CHUNK / 2

  ghost predicate Halves(rs: seq<bytes>) { forall i :: 0 <= i < |rs| ==> |rs[i]| == HALF }

  function MarkedWrites(rs: seq<bytes>): seq<Op> {
    if rs == [] then [] else [MarkRecord, Write(rs[0])] + MarkedWrites(rs[1..])
  }

  /** Writes the records, with a mark between any two. */
  function RecordOps(rs: seq<bytes>): seq<Op>
    requires rs != []
  {
    [Write(rs[0])] + MarkedWrites(rs[1..])
  }

  function RecordPieces(rs: seq<bytes>): (ps: seq<Piece>)
    ensures |ps| == |rs| && forall i :: 0 <= i < |rs| ==> ps[i] == Piece(rs[i], 1)
  {
    seq(|rs|, i requires 0 <= i < |rs| => Piece(rs[i], 1))
  }

  // ----- every record is a chunk -----

  lemma HalfCut(ps: seq<Piece>, r: bytes, next: bytes, starts: seq<nat>, full: State)
    requires |r| == |next| == HALF && full == State(ps, r + next, [0, HALF], starts)
    ensures Shape(full, MAX_CHUNK)
    ensures Emit(full) == State(ps + [Piece(r, 1)], next, [0], starts)
  {
    assert FirstEligible([0, HALF], 1) == 1;
    assert [0, HALF][1..] == [HALF];
    assert Cut(full.pending, full.marks) == (HALF, 1);
    assert (r + next)[..HALF] == r && (r + next)[HALF..] == next;
    assert Shift([0, HALF], 1, HALF) == [0];
  }

  lemma HalfStep(s: State, next: bytes) returns (s': State)
    requires s.marks == [0] && |s.pending| == |next| == HALF
    ensures Ready(s) && CanMark(s) && s' == Feed(Mark(s), next)
    ensures s'.pieces == s.pieces + [Piece(s.pending, 1)] && s'.pending == next && s'.marks == [0]
  {
    var m := Mark(s);
    assert [0] + [HALF] == [0, HALF];
    var full := m.(pending := s.pending + next);
    HalfCut(s.pieces, s.pending, next, m.starts, full);
    FeedFills(m, next, full);
    s' := Emit(full);
  }

  lemma MarkAndWrite(s: State, next: bytes, ops: seq<Op>)
    requires Ready(s) && CanMark(s)
    ensures Run(s, [MarkRecord, Write(next)] + ops) == Run(Feed(Mark(s), next), ops)
  {
    var all := [MarkRecord, Write(next)] + ops;
    assert all[1..] == [Write(next)] + ops && all[1..][1..] == ops;
  }

  lemma JoinPieces(a: seq<Piece>, rs: seq<bytes>)
    requires rs != []
    ensures (a + [Piece(rs[0], 1)]) + RecordPieces(rs[1..]) == a + RecordPieces(rs)
  {
  }

  lemma {:induction false} HalfRun(s: State, rs: seq<bytes>) returns (e: State)
    requires s.marks == [0] && |s.pending| == HALF && Halves(rs)
    ensures Ready(s) && Run(s, MarkedWrites(rs)) == Some(e) && e.marks == [0] && |e.pending| == HALF
    ensures e.pieces + [Piece(e.pending, 1)] == s.pieces + [Piece(s.pending, 1)] + RecordPieces(rs)
    decreases |rs|
  {
    e := s;
    if rs != [] {
      var s' := HalfStep(s, rs[0]);
      MarkAndWrite(s, rs[0], MarkedWrites(rs[1..]));
      e := HalfRun(s', rs[1..]);
      JoinPieces(s.pieces + [Piece(s.pending, 1)], rs);
    }
  }

  lemma HalfFlush(s: State)
    requires s.marks == [0] && |s.pending| == HALF
    ensures Shape(s, MAX_CHUNK - 1) && Flush(s).pieces == s.pieces + [Piece(s.pending, 1)]
  {
    assert Cut(s.pending, s.marks) == (HALF, 1);
    assert s.pending[..HALF] == s.pending;
  }

  lemma {:induction false} HalfContent(rs: seq<bytes>)
    requires Halves(rs)
    ensures |Content(RecordPieces(rs))| == |rs| * HALF
  {
    if rs != [] {
      HalfContent(rs[1..]);
      assert RecordPieces(rs)[1..] == RecordPieces(rs[1..]);
    }
  }

  lemma {:induction false} HalfWritesShort(rs: seq<bytes>)
    requires Halves(rs)
    ensures ShortWrites(MarkedWrites(rs))
  {
    if rs != [] {
      HalfWritesShort(rs[1..]);
      var ops, rest := MarkedWrites(rs), MarkedWrites(rs[1..]);
      forall i | 0 <= i < |ops| && ops[i].Write? ensures |ops[i].data| <= TWO31 - MAX_CHUNK {
        assert i >= 2 ==> ops[i] == rest[i - 2];
      }
    }
  }

  lemma HalfEnd(rs: seq<bytes>) returns (e: State)
    requires rs != [] && Halves(rs)
    ensures Ready(START) && Run(START, RecordOps(rs)) == Some(e) && e.marks == [0] && |e.pending| == HALF
    ensures e.pieces + [Piece(e.pending, 1)] == RecordPieces(rs)
  {
    var s := START.(pending := START.pending + rs[0]);
    FeedKeeps(START, rs[0]);
    assert [] + rs[0] == rs[0];
    e := HalfRun(s, rs[1..]);
    assert RecordOps(rs)[1..] == MarkedWrites(rs[1..]);
    assert RecordPieces(rs) == [] + [Piece(rs[0], 1)] + RecordPieces(rs[1..]);
  }

  lemma RecordOpsShort(rs: seq<bytes>)
    requires rs != [] && Halves(rs)
    ensures ShortWrites(RecordOps(rs))
  {
    HalfWritesShort(rs[1..]);
    var ops, rest := RecordOps(rs), MarkedWrites(rs[1..]);
    forall i | 0 <= i < |ops| && ops[i].Write? ensures |ops[i].data| <= TWO31 - MAX_CHUNK {
      assert i >= 1 ==> ops[i] == rest[i - 1];
    }
  }

  lemma HalfWritten(rs: seq<bytes>, e: State)
    requires rs != [] && Halves(rs) && Ready(START) && Run(START, RecordOps(rs)) == Some(e)
    requires e.pieces + [Piece(e.pending, 1)] == RecordPieces(rs)
    ensures Written(RecordOps(rs)) == Content(RecordPieces(rs)) && |Written(RecordOps(rs))| == |rs| * HALF
  {
    HalfContent(rs);
    SnocPiece(e.pieces, Piece(e.pending, 1));
    RunStream(START, RecordOps(rs));
    assert Stream(START) == [];
    Nothing(Written(RecordOps(rs)));
  }

  /** The chunks of such a run are its records. */
  lemma HalfPieces(rs: seq<bytes>, limit: nat)
    requires rs != [] && Halves(rs) && |rs| < TWO32 && limit >= IndirectSize(1)
    ensures ValidRun(RecordOps(rs), limit) && PiecesOf(RecordOps(rs), limit) == RecordPieces(rs)
    ensures Written(RecordOps(rs)) == Content(RecordPieces(rs))
  {
    var e := HalfEnd(rs);
    HalfFlush(e);
    HalfWritten(rs, e);
    RecordOpsShort(rs);
  }

  // ----- low halves of checksums -----

  function Low(sum: u32): nat { sum % TWO16 }

  lemma LowConcat(x: bytes, y: bytes)
    requires y != []
    ensures Low(Adler32.Of(x + y)) == (Low(Adler32.Of(x)) + Low(Adler32.Of(y)) - 1) % Adler32.BASE
  {
    Adler32.OfHalves(x);
    Adler32.OfHalves(y);
    Adler32.OfHalves(x + y);
    Adler32.RunConcat(Adler32.START, x, y);
    Adler32.RunFromA(Adler32.Run(Adler32.START, x), y);
  }

  lemma LowCat(sum1: u32, sum2: u32, n: nat)
    ensures Low(Adler32.Cat(sum1, sum2, n)) == ((Low(sum1) + Low(sum2) - 1) % TWO32) % Adler32.BASE
  {
    var s1, s2 := Adler32.Unpack(sum1), Adler32.Unpack(sum2);
    Adler32.CatHalves(sum1, sum2, n, s1.a + s2.a - 1,
                      s1.a * (n % Adler32.BASE) + s1.b + s2.b - n % Adler32.BASE);
  }

  lemma {:induction false} RawZeros(s: Adler32.Halves, d: bytes, n: nat)
    ensures Adler32.Raw(s, d + Xdr.Zeros(n)).a == Adler32.Raw(s, d).a
  {
    var e := d + Xdr.Zeros(n);
    if n == 0 {
      assert e == d;
    } else {
      assert e[..|e| - 1] == d + Xdr.Zeros(n - 1);
      RawZeros(s, d, n - 1);
    }
  }

  /** Records of half the maximum chunk size: the checksum of `z` has a zero low half, that of `o`
      a low half of 101. */
  ghost predicate ZeroAndOther(o: bytes, z: bytes) {
    |o| == |z| == HALF && Low(Adler32.Of(o)) == 101 && Low(Adler32.Of(z)) == 0
  }

  // ----- two records -----

  lemma TwoPieces(z: bytes)
    requires |z| == HALF && Low(Adler32.Of(z)) == 0
    ensures RecordPieces([z, z]) == [Piece(z, 1)] + [Piece(z, 1)] && Content(RecordPieces([z, z])) == z + z
    ensures !NoneWraps(RecordPieces([z, z])) && RunningSum(RecordPieces([z, z])) != Adler32.Of(z + z)
  {
    var p := Piece(z, 1);
    assert RecordPieces([z, z]) == [p] + [p] && ([p] + [p])[..1] == [p];
    OnePiece(p);
    SnocPiece([p], p);
    Nothing([p]);
    Nothing(z);
    RunningSumSnoc([], p);
    RunningSumSnoc([p], p);
    Adler32.CatIsExact([], z);
    Adler32.CatIsExact(z, z);
  }

  // ----- the key tree over few chunks -----

  function LeafTrees(ps: seq<Piece>): (ts: seq<Tree>)
    ensures |ts| == |ps| && forall i :: 0 <= i < |ps| ==> ts[i] == Leaf(ps[i])
  {
    seq(|ps|, i requires 0 <= i < |ps| => Leaf(ps[i]))
  }

  lemma {:induction false} LeavesOfLeafTrees(ps: seq<Piece>)
    ensures AllLeaves(LeafTrees(ps)) == ps
  {
    if ps != [] {
      LeavesOfLeafTrees(ps[1..]);
      assert LeafTrees(ps)[1..] == LeafTrees(ps[1..]);
    }
  }

  lemma LeafTreesOk(ps: seq<Piece>)
    requires PiecesOk(ps) && 0 < |ps| <= MAXKEYS
    ensures TreeOk(Node(LeafTrees(ps))) && Level(Node(LeafTrees(ps))) == 1
  {
    forall i | 0 <= i < |ps| ensures TreeOk(LeafTrees(ps)[i]) { assert PieceOk(ps[i]); }
    NodeOk(LeafTrees(ps), 0);
  }

  /** One more chunk while there is room for it. */
  lemma GrowRoom(c: Crypto, ps: seq<Piece>, n: nat)
    requires PiecesOk(ps) && |ps| == n + 1
    requires |Append(Grow(c, ps[..n]), Leaf(ps[n]))[0]| <= MAXKEYS
    ensures Grow(c, ps) == Append(Grow(c, ps[..n]), Leaf(ps[n]))
  {
    assert PieceOk(ps[n]);
    NoOverflow(c, Grow(c, ps[..n]), Leaf(ps[n]));
  }

  lemma {:induction false} GrowSmall(c: Crypto, ps: seq<Piece>)
    requires PiecesOk(ps) && 0 < |ps| <= MAXKEYS
    ensures Grow(c, ps) == [LeafTrees(ps)]
    decreases |ps|
  {
    var n := |ps| - 1;
    if n > 0 {
      GrowSmall(c, ps[..n]);
    }
    assert LeafTrees(ps) == LeafTrees(ps[..n]) + [Leaf(ps[n])];
    GrowRoom(c, ps, n);
  }

  /** A merge whose key finds room at the next level. */
  lemma MergeRoom(c: Crypto, f: Forest, lev: nat)
    requires lev < |f| && ForestOk(f, lev) && TreeOk(Node(f[lev])) && Level(Node(f[lev])) == lev + 1
    requires |Append(f, Node(f[lev]))[lev + 1]| <= MAXKEYS
    ensures MergeLevel(c, f, lev) == SetLevel(Append(f, Node(f[lev])), lev, [])
  {
    NoOverflow(c, f, Node(f[lev]));
  }

  /** Two to eight chunks under one key. */
  lemma OneTop(c: Crypto, ps: seq<Piece>, limit: nat)
    requires PiecesOk(ps) && 1 < |ps| <= MAXKEYS && IndirectSize(1) <= limit < IndirectSize(2)
    ensures MergeUp(c, Grow(c, ps), 0, limit) == [Node(LeafTrees(ps))]
  {
    var f, t := [LeafTrees(ps)], Node(LeafTrees(ps));
    GrowSmall(c, ps);
    LeafTreesOk(ps);
    MergeRoom(c, f, 0);
    assert SetLevel(Append(f, t), 0, []) == [[], [t]];
    assert Done([[], [t]], 1, limit) && !Done(f, 0, limit);
  }

  lemma LeafSums(c: Crypto, ps: seq<Piece>)
    requires PiecesOk(ps) && 0 < |ps| <= MAXKEYS
    ensures TreeOk(Node(LeafTrees(ps))) && KeyOf(c, Node(LeafTrees(ps))).isum == RunningSum(ps)
  {
    LeafTreesOk(ps);
    LeavesOfLeafTrees(ps);
    FlatSums(c, LeafTrees(ps));
  }

  lemma InfoTop(c: Crypto, rs: seq<bytes>, limit: nat) returns (top: seq<Tree>)
    requires |rs| > 1 && Halves(rs) && |rs| < TWO32 && limit >= IndirectSize(1)
    ensures ValidRun(RecordOps(rs), limit) && PiecesOk(RecordPieces(rs))
    ensures top == MergeUp(c, Grow(c, RecordPieces(rs)), 0, limit) && forall i :: 0 <= i < |top| ==> TreeOk(top[i])
    ensures InfoOf(c, RecordOps(rs), limit) == Indirect(KeysOf(c, top))
  {
    HalfPieces(rs, limit);
    PiecesFacts(RecordOps(rs), limit);
    EndFacts(RecordOps(rs), limit);
    var e := HalfEnd(rs);
    assert |e.pieces| + 1 == |rs|;
    var ps;
    top, ps := TopOf(c, e, limit);
  }

  lemma TwoRecordsKey(c: Crypto, z: bytes, limit: nat) returns (info: OpaqueInfo)
    requires |z| == HALF && Low(Adler32.Of(z)) == 0 && IndirectSize(1) <= limit < IndirectSize(2)
    ensures ValidRun(RecordOps([z, z]), limit) && info == InfoOf(c, RecordOps([z, z]), limit)
    ensures info.Indirect? && |info.kl| == 1 && info.kl[0].isum != Adler32.Of(Written(RecordOps([z, z])))
  {
    var ps := RecordPieces([z, z]);
    var top := InfoTop(c, [z, z], limit);
    info := Indirect(KeysOf(c, top));
    HalfPieces([z, z], limit);
    OneTop(c, ps, limit);
    LeafSums(c, ps);
    TwoPieces(z);
  }

  // ----- the sum of the result -----

  /** Ten chunks are more than one level keeps: the first four to eight go under one key, and in
      the end the others under another one. */
  lemma GrowNine(c: Crypto, ps: seq<Piece>) returns (k: nat)
    requires PiecesOk(ps) && |ps| == 9
    ensures MINKEYS <= k <= MAXKEYS
    ensures Grow(c, ps) == [LeafTrees(ps[k..]), [Node(LeafTrees(ps[..k]))]]
  {
    var f, t := [LeafTrees(ps[..8])], Leaf(ps[8]);
    GrowSmall(c, ps[..8]);
    assert PieceOk(ps[8]);
    SnocLeaves(ps);
    OneLevel(Append(f, t));
    var nk, hi := Overflow(c, f, t);
    k := |nk.kids|;
    SplitLeaves(ps, nk.kids, hi);
    NoOverflow(c, Append(f, t), nk);
    TwoLevels(AddTree(c, f, t));
  }

  lemma SnocLeaves(ps: seq<Piece>)
    requires ps != []
    ensures LeafTrees(ps) == LeafTrees(ps[..|ps| - 1]) + [Leaf(ps[|ps| - 1])]
  {
  }

  lemma OneLevel(f: Forest)
    requires |f| == 1
    ensures f == [f[0]]
  {
  }

  lemma TwoLevels(f: Forest)
    requires |f| == 2
    ensures f == [f[0], f[1]]
  {
  }

  lemma SplitLeaves(ps: seq<Piece>, lo: seq<Tree>, hi: seq<Tree>)
    requires LeafTrees(ps) == lo + hi
    ensures lo == LeafTrees(ps[..|lo|]) && hi == LeafTrees(ps[|lo|..])
  {
    assert |ps| == |lo| + |hi|;
    forall i | 0 <= i < |lo| ensures lo[i] == LeafTrees(ps[..|lo|])[i] { assert lo[i] == LeafTrees(ps)[i]; }
    forall i | 0 <= i < |hi| ensures hi[i] == LeafTrees(ps[|lo|..])[i] { assert hi[i] == LeafTrees(ps)[|lo| + i]; }
  }

  lemma GrowTen(c: Crypto, ps: seq<Piece>) returns (k: nat)
    requires PiecesOk(ps) && |ps| == 10
    ensures MINKEYS <= k <= MAXKEYS
    ensures Grow(c, ps) == [LeafTrees(ps[k..]), [Node(LeafTrees(ps[..k]))]]
  {
    k := GrowNine(c, ps[..9]);
    TenParts(ps, k);
    SnocLeaves(ps[k..]);
    GrowRoom(c, ps, 9);
    TwoLevels(Grow(c, ps));
  }

  lemma TenParts(ps: seq<Piece>, k: nat)
    requires |ps| == 10 && k <= 8
    ensures ps[..9][..k] == ps[..k] && ps[..9][k..] == ps[k..][..|ps[k..]| - 1] && ps[k..][|ps[k..]| - 1] == ps[9]
  {
  }

  lemma TwoTops(c: Crypto, ps: seq<Piece>, limit: nat) returns (k: nat)
    requires PiecesOk(ps) && |ps| == 10 && limit >= IndirectSize(2)
    ensures MINKEYS <= k <= MAXKEYS
    ensures MergeUp(c, Grow(c, ps), 0, limit) == [Node(LeafTrees(ps[..k])), Node(LeafTrees(ps[k..]))]
  {
    k := GrowTen(c, ps);
    var f, lo, hi := Grow(c, ps), Node(LeafTrees(ps[..k])), Node(LeafTrees(ps[k..]));
    LeafTreesOk(ps[k..]);
    MergeRoom(c, f, 0);
    TwoLevels(SetLevel(Append(f, hi), 0, []));
    assert [lo] + [hi] == [lo, hi];
    assert Done([[], [lo, hi]], 1, limit) && !Done(f, 0, limit);
  }

  /** `o` and nine times `z`: the checksum of no prefix has a zero low half. */
  function TenRecords(o: bytes, z: bytes): (rs: seq<bytes>)
    ensures |rs| == 10 && rs[0] == o && forall i :: 1 <= i < 10 ==> rs[i] == z
  {
    seq(10, i => if i == 0 then o else z)
  }

  ghost predicate TenPieces(ps: seq<Piece>, o: bytes, z: bytes) {
    |ps| == 10 && ps[0] == Piece(o, 1) && forall i :: 1 <= i < 10 ==> ps[i] == Piece(z, 1)
  }

  lemma {:induction false} PrefixLow(ps: seq<Piece>, o: bytes, z: bytes, n: nat)
    requires ZeroAndOther(o, z) && TenPieces(ps, o, z) && 1 <= n <= 10
    ensures Low(Adler32.Of(Content(ps[..n]))) == 102 - n
    decreases n
  {
    if n == 1 {
      OnePiece(ps[0]);
      assert ps[..1] == [ps[0]];
    } else {
      PrefixLow(ps, o, z, n - 1);
      assert ps[..n] == ps[..n - 1] + [ps[n - 1]];
      LowStep(ps[..n - 1], Piece(z, 1), 103 - n);
    }
  }

  lemma LowDown(x: bytes, y: bytes)
    requires y != [] && Low(Adler32.Of(y)) == 0 && 0 < Low(Adler32.Of(x)) <= Adler32.BASE
    ensures Low(Adler32.Of(x + y)) == Low(Adler32.Of(x)) - 1
  {
    LowConcat(x, y);
  }

  lemma LowStep(ps: seq<Piece>, p: Piece, low: nat)
    requires p.data != [] && Low(Adler32.Of(p.data)) == 0
    requires Low(Adler32.Of(Content(ps))) == low && 0 < low <= Adler32.BASE
    ensures Low(Adler32.Of(Content(ps + [p]))) == low - 1
  {
    SnocPiece(ps, p);
    LowDown(Content(ps), p.data);
  }

  /** So the comparison holds after every chunk. */
  lemma {:induction false} TenAgree(ps: seq<Piece>, o: bytes, z: bytes, n: nat)
    requires ZeroAndOther(o, z) && TenPieces(ps, o, z) && n <= 10
    ensures NoneWraps(ps[..n])
    decreases n
  {
    if n > 0 {
      TenAgree(ps, o, z, n - 1);
      assert ps[..n][..n - 1] == ps[..n - 1];
      if n > 1 {
        PrefixLow(ps, o, z, n - 1);
      } else {
        assert Content(ps[..0]) == [];
      }
    }
  }

  lemma TenSums(ps: seq<Piece>, o: bytes, z: bytes, n: nat)
    requires ZeroAndOther(o, z) && TenPieces(ps, o, z) && 1 <= n <= 10
    ensures Low(RunningSum(ps[..n])) == 102 - n && AlwaysAgree(ps[..n])
  {
    TenAgree(ps, o, z, n);
    AgreeIffNoneWraps(ps[..n]);
    PrefixLow(ps, o, z, n);
  }

  lemma LowAdds(sum1: u32, sum2: u32, n: nat)
    requires 1 <= Low(sum1) + Low(sum2) <= Adler32.BASE
    ensures Low(Adler32.Cat(sum1, sum2, n)) == Low(sum1) + Low(sum2) - 1
  {
    LowCat(sum1, sum2, n);
  }

  lemma LowWraps(sum1: u32, sum2: u32, n: nat)
    requires Low(sum1) == Low(sum2) == 0
    ensures Low(Adler32.Cat(sum1, sum2, n)) == 224
  {
    LowCat(sum1, sum2, n);
  }

  lemma OneLater(p: Piece)
    requires Low(Adler32.Of(p.data)) == 0
    ensures Low(RunningSum([p])) == 0
  {
    Nothing([p]);
    RunningSumSnoc([], p);
    LowAdds(Adler32.INIT, Adler32.Of(p.data), |p.data|);
  }

  /** Composed among themselves the later chunks go wrong from the second on. */
  lemma {:induction false} LaterSums(ps: seq<Piece>, p: Piece)
    requires 2 <= |ps| <= 8 && Low(Adler32.Of(p.data)) == 0 && forall i :: 0 <= i < |ps| ==> ps[i] == p
    ensures Low(RunningSum(ps)) == 226 - |ps|
    decreases |ps|
  {
    var n := |ps| - 1;
    assert ps == ps[..n] + [p];
    RunningSumSnoc(ps[..n], p);
    if n == 1 {
      assert ps[..1] == [p];
      OneLater(p);
      LowWraps(RunningSum(ps[..n]), Adler32.Of(p.data), |p.data|);
    } else {
      LaterSums(ps[..n], p);
      LowAdds(RunningSum(ps[..n]), Adler32.Of(p.data), |p.data|);
    }
  }

  lemma TwoKeySums(c: Crypto, a: Tree, b: Tree)
    requires TreeOk(a) && TreeOk(b)
    requires Low(KeyOf(c, a).isum) + Low(KeyOf(c, b).isum) == 318
    ensures NonNegSizes(KeysOf(c, [a, b])) && Low(CatSums(Adler32.INIT, KeysOf(c, [a, b]))) == 317
  {
    var k, l := KeyOf(c, a), KeyOf(c, b);
    assert [a, b][..1] == [a] && [a][..0] == [];
    KeysSnoc(c, [a, b]);
    KeysSnoc(c, [a]);
    LowAdds(Adler32.INIT, k.isum, k.isize);
    LowAdds(Adler32.Cat(Adler32.INIT, k.isum, k.isize), l.isum, l.isize);
  }

  lemma FirstKeySum(c: Crypto, ps: seq<Piece>, o: bytes, z: bytes, k: nat)
    requires ZeroAndOther(o, z) && TenPieces(ps, o, z) && PiecesOk(ps) && MINKEYS <= k <= MAXKEYS
    ensures TreeOk(Node(LeafTrees(ps[..k]))) && Low(KeyOf(c, Node(LeafTrees(ps[..k]))).isum) == 102 - k
  {
    LeafSums(c, ps[..k]);
    TenSums(ps, o, z, k);
  }

  lemma SecondKeySum(c: Crypto, ps: seq<Piece>, o: bytes, z: bytes, k: nat)
    requires ZeroAndOther(o, z) && TenPieces(ps, o, z) && PiecesOk(ps) && MINKEYS <= k <= MAXKEYS
    ensures TreeOk(Node(LeafTrees(ps[k..]))) && Low(KeyOf(c, Node(LeafTrees(ps[k..]))).isum) == 216 + k
  {
    LeafSums(c, ps[k..]);
    LaterSums(ps[k..], Piece(z, 1));
  }

  lemma TenTop(c: Crypto, ps: seq<Piece>, o: bytes, z: bytes, top: seq<Tree>, limit: nat)
    requires ZeroAndOther(o, z) && TenPieces(ps, o, z) && PiecesOk(ps) && limit >= IndirectSize(2)
    requires top == MergeUp(c, Grow(c, ps), 0, limit) && forall i :: 0 <= i < |top| ==> TreeOk(top[i])
    ensures NonNegSizes(KeysOf(c, top)) && Low(CatSums(Adler32.INIT, KeysOf(c, top))) == 317
  {
    var k := TwoTops(c, ps, limit);
    FirstKeySum(c, ps, o, z, k);
    SecondKeySum(c, ps, o, z, k);
    TwoKeySums(c, Node(LeafTrees(ps[..k])), Node(LeafTrees(ps[k..])));
  }

  lemma TenRecordsSum(c: Crypto, o: bytes, z: bytes, limit: nat) returns (info: OpaqueInfo, ps: seq<Piece>)
    requires ZeroAndOther(o, z) && limit >= IndirectSize(2)
    ensures ValidRun(RecordOps(TenRecords(o, z)), limit)
    ensures info == InfoOf(c, RecordOps(TenRecords(o, z)), limit)
    ensures ps == PiecesOf(RecordOps(TenRecords(o, z)), limit)
    ensures AlwaysAgree(ps) && info.Indirect? && NonNegSizes(info.kl) && InternalSum(info) != RunningSum(ps)
  {
    var rs := TenRecords(o, z);
    ps := RecordPieces(rs);
    var top := InfoTop(c, rs, limit);
    info := Indirect(KeysOf(c, top));
    HalfPieces(rs, limit);
    TenTop(c, ps, o, z, top, limit);
    TenSums(ps, o, z, 10);
    assert ps[..10] == ps;
  }

  // ----- the records -----

  /** A record whose checksum has a zero low half, and one with a low half of 101. */
  function ZeroLow(): (r: bytes)
    ensures |r| == HALF
  {
    Adler32.ZERO_LOW + Xdr.Zeros(HALF - 257)
  }

  function Other(): (r: bytes)
    ensures |r| == HALF
  {
    Xdr.Zeros(HALF - 1) + [100]
  }

  lemma ZeroLowIs()
    ensures Low(Adler32.Of(ZeroLow())) == 0
  {
    Adler32.ZeroLow();
    RawZeros(Adler32.START, Adler32.ZERO_LOW, HALF - 257);
    Adler32.LowOf(ZeroLow());
  }

  lemma RawLast(d: bytes, x: byte)
    ensures Adler32.Raw(Adler32.START, d + [x]).a == Adler32.Raw(Adler32.START, d).a + x
  {
    assert (d + [x])[..|d|] == d;
  }

  lemma LowAfter(d: bytes, x: byte)
    requires Adler32.Raw(Adler32.START, d).a == 1
    ensures Low(Adler32.Of(d + [x])) == 1 + x
  {
    RawLast(d, x);
    Adler32.LowOf(d + [x]);
  }

  lemma ZerosThen(n: nat, x: byte)
    ensures Low(Adler32.Of(Xdr.Zeros(n) + [x])) == 1 + x
  {
    RawZeros(Adler32.START, [], n);
    Nothing(Xdr.Zeros(n));
    LowAfter(Xdr.Zeros(n), x);
  }

  lemma OtherIs()
    ensures Low(Adler32.Of(Other())) == 101
  {
    ZerosThen(HALF - 1, 100);
  }

  /** A stream on which the comparison fails at the second chunk. */
  lemma ComparisonCanFail(limit: nat)
    requires limit >= IndirectSize(1)
    ensures var ops := RecordOps([ZeroLow(), ZeroLow()]);
            ValidRun(ops, limit) && !AlwaysAgree(PiecesOf(ops, limit))
  {
    ZeroLowIs();
    HalfPieces([ZeroLow(), ZeroLow()], limit);
    TwoPieces(ZeroLow());
    AgreeIffNoneWraps(RecordPieces([ZeroLow(), ZeroLow()]));
  }

  /** A key whose sum is not that of the data below it: the only key of that stream. */
  lemma KeySumCanFail(c: Crypto, limit: nat) returns (info: OpaqueInfo)
    requires IndirectSize(1) <= limit < IndirectSize(2)
    ensures var ops := RecordOps([ZeroLow(), ZeroLow()]);
            ValidRun(ops, limit) && info == InfoOf(c, ops, limit) && info.Indirect? && |info.kl| == 1 &&
            info.kl[0].isum != Adler32.Of(Written(ops))
  {
    ZeroLowIs();
    info := TwoRecordsKey(c, ZeroLow(), limit);
  }

  /** A stream on which the comparison holds after every chunk, and the sum of what `finish`
      returns is still not the one composed: the second of its two top keys carries a wrong sum. */
  lemma FinishSumCanFail(c: Crypto, limit: nat) returns (info: OpaqueInfo, ps: seq<Piece>)
    requires limit >= IndirectSize(2)
    ensures var ops := RecordOps(TenRecords(Other(), ZeroLow()));
            ValidRun(ops, limit) && info == InfoOf(c, ops, limit) && ps == PiecesOf(ops, limit)
    ensures AlwaysAgree(ps) && info.Indirect? && NonNegSizes(info.kl) && InternalSum(info) != RunningSum(ps)
  {
    ZeroLowIs();
    OtherIs();
    info, ps := TenRecordsSum(c, Other(), ZeroLow(), limit);
  }
}
