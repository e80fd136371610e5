/** When a stream is inlined, when keys move into a key chunk, and where merging them stops: said of the
    stream and of the keys. */
module KeyRules {
  import opened Bytes
  import opened OpaqueMeta
  import opened KeyTree
  import opened Levels
  import opened Build
  import opened Chunker
  import opened ChunkerRuns
  import opened Alignment
  import opened RecordRuns
  import opened Coded
  import opened RoundTrip
  import opened RecordReads

  // ----- adding a key -----

  /** Of the 4th to the 8th key the `n`-th has the lowest check, and no later one has the same. */
  ghost predicate LowestAt(c: Crypto, ks: seq<OpaqueKey>, n: nat)
    requires |ks| > MAXKEYS
  {
    MINKEYS <= n <= MAXKEYS &&
    forall i :: MINKEYS - 1 <= i < MAXKEYS ==>
      c.check(ks[n - 1].ohash) <= c.check(ks[i].ohash) &&
      (n <= i ==> c.check(ks[n - 1].ohash) < c.check(ks[i].ohash))
  }

  lemma SplitIsLowest(c: Crypto, ks: seq<OpaqueKey>) returns (n: nat)
    requires |ks| > MAXKEYS
    ensures n == SplitPoint(c, ks) && LowestAt(c, ks, n)
  {
    n := SplitPoint(c, ks);
    forall i | MINKEYS - 1 <= i < MAXKEYS
      ensures c.check(ks[n - 1].ohash) <= c.check(ks[i].ohash)
      ensures n <= i ==> c.check(ks[n - 1].ohash) < c.check(ks[i].ohash)
    {
      SplitPointIsLastLowest(c, ks, i);
    }
  }

  /** The keys of a level with one more. */
  function WithNew(f: Forest, t: Tree): seq<Tree> {
    (if Level(t) < |f| then f[Level(t)] else []) + [t]
  }

  /** Up to eight keys stay where they are and nothing is handed out. */
  lemma LevelHoldsEight(c: Crypto, f: Forest, t: Tree)
    requires TreeOk(t) && Level(t) <= |f| && ForestOk(f, Level(t)) && |WithNew(f, t)| <= 8
    ensures AddTree(c, f, t) == (if Level(t) < |f| then f[Level(t) := WithNew(f, t)] else f + [[t]])
    ensures AddEvents(c, f, t) == []
  {
    NoOverflow(c, f, t);
    assert [] + [t] == [t];
  }

  /** The ninth key sends the first ones up as one key chunk, to end with the lowest check; it is
      handed out after the key chunks it makes necessary above, and the others stay. */
  lemma LevelSplits(c: Crypto, f: Forest, t: Tree) returns (n: nat)
    requires TreeOk(t) && Level(t) <= |f| && ForestOk(f, Level(t)) && |WithNew(f, t)| > 8
    ensures var ts, lev := WithNew(f, t), Level(t);
            lev < |f| && |ts| == 9 && TreesOk(ts, lev) && LowestAt(c, KeysOf(c, ts), n) &&
            TreeOk(Node(ts[..n])) && Level(Node(ts[..n])) == lev + 1 && ForestOk(f[lev := ts], lev + 1) &&
            AddTree(c, f, t) == AddTree(c, f[lev := ts], Node(ts[..n]))[lev := ts[n..]] &&
            AddEvents(c, f, t) ==
            AddEvents(c, f[lev := ts], Node(ts[..n])) + [NodeEvent(c, Node(ts[..n]))]
  {
    var ts, lev := WithNew(f, t), Level(t);
    AppendOk(f, t);
    assert Append(f, t) == f[lev := ts];
    n := SplitIsLowest(c, KeysOf(c, ts));
    NodeOk(ts[..n], lev);
  }

  // ----- merging -----

  /** Merging stops on the last level if its keys fit the limit; if they do not, one key stands for
      them. */
  lemma MergeStops(c: Crypto, f: Forest, lev: nat, limit: nat)
    requires |f| == lev + 1 && ForestOk(f, lev) && limit >= IndirectSize(1)
    ensures TreeOk(Node(f[lev])) && TreesOk(f[lev], lev) && NonNegSizes(KeysOf(c, f[lev]))
    ensures MergeUp(c, f, lev, limit) == if 8 + 128 * |f[lev]| <= limit then f[lev] else [Node(f[lev])]
    ensures MergeEvents(c, f, lev, limit) ==
            if 8 + 128 * |f[lev]| <= limit then [] else [NodeEvent(c, Node(f[lev]))]
  {
    assert LevelOk(f, lev);
    NodeOk(f[lev], lev);
    var t := Node(f[lev]);
    if 8 + 128 * |f[lev]| > limit {
      LevelHoldsEight(c, f, t);
      MergeLevelKeeps(c, f, lev);
      var f' := MergeLevel(c, f, lev);
      assert |f'| == lev + 2 && f'[lev + 1] == [t];
      assert Done(f', lev + 1, limit);
      assert AddEvents(c, f, t) == [];
    }
  }

  /** Below the last level all keys of a level become one key chunk, whether they fit or not. */
  lemma MergeGoesOn(c: Crypto, f: Forest, lev: nat, limit: nat)
    requires lev + 1 < |f| && ForestOk(f, lev) && limit >= IndirectSize(1)
    ensures TreeOk(Node(f[lev])) && Level(Node(f[lev])) == lev + 1 && ForestOk(f, lev + 1)
    ensures var f' := AddTree(c, f, Node(f[lev]))[lev := []];
            ForestOk(f', lev + 1) && MergeUp(c, f, lev, limit) == MergeUp(c, f', lev + 1, limit) &&
            MergeEvents(c, f, lev, limit) == AddEvents(c, f, Node(f[lev])) + [NodeEvent(c, Node(f[lev]))] +
                                             MergeEvents(c, f', lev + 1, limit)
  {
    assert LevelOk(f, lev);
    NodeOk(f[lev], lev);
    MergeLevelKeeps(c, f, lev);
    assert MergeLevel(c, f, lev) == AddTree(c, f, Node(f[lev]))[lev := []];
  }

  /** The keys returned lie on or above the highest level there is, above a level that does not
      fit. */
  lemma {:induction false} MergeReaches(c: Crypto, f: Forest, lev: nat, limit: nat)
    requires lev < |f| && ForestOk(f, lev) && limit >= IndirectSize(1)
    ensures Level(MergeUp(c, f, lev, limit)[0]) >= |f| - 1
    ensures 8 + 128 * |f[lev]| > limit ==> Level(MergeUp(c, f, lev, limit)[0]) > lev
    decreases KeysFrom(f, lev), |f| - lev
  {
    assert LevelOk(f, lev);
    if !Done(f, lev, limit) {
      MergeLevelKeeps(c, f, lev);
      MergeReaches(c, MergeLevel(c, f, lev), lev + 1, limit);
    }
  }

  lemma {:induction false} FewLeaves(c: Crypto, ps: seq<Piece>)
    requires PiecesOk(ps) && 0 < |ps| <= 8
    ensures |Grow(c, ps)| == 1 && |Grow(c, ps)[0]| == |ps|
    ensures forall i :: 0 <= i < |ps| ==> Grow(c, ps)[0][i] == Leaf(ps[i])
    ensures forall e :: e in Log(c, ps) ==> e.DataChunk?
  {
    var n := |ps| - 1;
    assert PieceOk(ps[n]);
    var f, t := Grow(c, ps[..n]), Leaf(ps[n]);
    if n > 0 {
      FewLeaves(c, ps[..n]);
    }
    LevelHoldsEight(c, f, t);
  }

  // ----- whole runs -----

  /** A stream has been cut as soon as it fills the buffer. */
  ghost predicate CutWhenFull(s: State) {
    (s.pieces == [] <==> Total(s) < MAX_CHUNK) && (s.pieces == [] ==> s.marks != [])
  }

  lemma EmitGrows(s: State)
    requires 0 < |s.pending| && Shape(s, MAX_CHUNK)
    ensures Total(Emit(s)) == Total(s) && Emit(s).pieces != []
  {
    var size, recs, p := EmitParts(s);
  }

  lemma Feed1Full(s: State, b: byte)
    requires Ready(s) && CutWhenFull(s)
    ensures CutWhenFull(Feed1(s, b))
  {
    var s' := s.(pending := s.pending + [b]);
    assert s.pieces == [] ==> Content(s.pieces) == [];
    if |s'.pending| == MAX_CHUNK {
      EmitGrows(s');
    }
  }

  lemma {:induction false} FeedFull(s: State, d: bytes)
    requires Ready(s) && CutWhenFull(s)
    ensures CutWhenFull(Feed(s, d))
  {
    if d != [] {
      FeedFull(s, d[..|d| - 1]);
      Feed1Full(Feed(s, d[..|d| - 1]), d[|d| - 1]);
    }
  }

  lemma MarkFull(s: State)
    requires Ready(s) && CanMark(s) && CutWhenFull(s)
    ensures CutWhenFull(Mark(s))
  {
    if s.marks == [] && 0 < |s.pending| {
      EmitGrows(s);
    }
  }

  lemma {:induction false} RunFull(s: State, ops: seq<Op>)
    requires Ready(s) && CutWhenFull(s) && Run(s, ops).Some?
    ensures CutWhenFull(Run(s, ops).value)
    decreases |ops|
  {
    if ops != [] {
      if ops[0].Write? {
        FeedFull(s, ops[0].data);
        RunFull(Feed(s, ops[0].data), ops[1..]);
      } else {
        MarkFull(s);
        RunFull(Mark(s), ops[1..]);
      }
    }
  }

  /** The stream with all its records, as inline metadata. */
  function AllInline(ops: seq<Op>): OpaqueInfo {
    var n := |RecordBounds(ops)| - 1;
    if n == 1 then Inline1(Written(ops)) else InlineRecs(n, Written(ops))
  }

  lemma RunBounds(ops: seq<Op>, limit: nat)
    requires ValidRun(ops, limit)
    ensures RecordBounds(ops) == Bounds(EndState(ops, limit).starts, |Written(ops)|)
  {
    EndFacts(ops, limit);
    RunStarts(START, ops, 0);
  }

  /** The stream is returned inline exactly if it never filled the buffer and its encoding fits the
      limit. */
  lemma InlineIff(c: Crypto, ops: seq<Op>, limit: nat)
    requires ValidRun(ops, limit)
    ensures |Written(ops)| < MAX_CHUNK ==> Storable(AllInline(ops))
    ensures InfoOf(c, ops, limit).Indirect? <==>
            |Written(ops)| >= MAX_CHUNK || |PutInfo(AllInline(ops))| > limit
    ensures !InfoOf(c, ops, limit).Indirect? ==> InfoOf(c, ops, limit) == AllInline(ops)
  {
    EndFacts(ops, limit);
    RunFull(START, ops);
    RunBounds(ops, limit);
    var s := EndState(ops, limit);
    if |Written(ops)| < MAX_CHUNK {
      InlineInfo(s);
      InfoLength(AllInline(ops));
    }
  }

  /** A stream of up to eight chunks that is not inlined: the keys of its chunks if they fit the
      limit, else the key of the one key chunk over them. */
  lemma FewChunks(c: Crypto, ops: seq<Op>, limit: nat) returns (top: seq<Tree>)
    requires ValidRun(ops, limit) && InfoOf(c, ops, limit).Indirect? && |PiecesOf(ops, limit)| <= 8
    ensures |top| == |PiecesOf(ops, limit)| && TreesOk(top, 0) && NonNegSizes(KeysOf(c, top))
    ensures forall i :: 0 <= i < |top| ==> top[i] == Leaf(PiecesOf(ops, limit)[i])
    ensures InfoOf(c, ops, limit) ==
            Indirect(if 8 + 128 * |top| <= limit then KeysOf(c, top) else [ChunkKey(c, KeysOf(c, top))])
  {
    EndFacts(ops, limit);
    top := FewKeys(c, EndState(ops, limit), limit, PiecesOf(ops, limit));
  }

  lemma FewKeys(c: Crypto, s: State, limit: nat, ps: seq<Piece>) returns (top: seq<Tree>)
    requires CanFinish(s, limit) && FinishInfo(c, s, limit).Indirect? && ps == Flush(s).pieces && |ps| <= 8
    ensures |top| == |ps| && TreesOk(top, 0) && NonNegSizes(KeysOf(c, top))
    ensures forall i :: 0 <= i < |top| ==> top[i] == Leaf(ps[i])
    ensures FinishInfo(c, s, limit) ==
            Indirect(if 8 + 128 * |top| <= limit then KeysOf(c, top) else [ChunkKey(c, KeysOf(c, top))])
  {
    FlushedPieces(s);
    top := FewTops(c, ps, limit);
    assert TopTrees(c, s, limit) == MergeUp(c, Grow(c, ps), 0, limit);
    OneKey(c, top);
  }

  lemma OneKey(c: Crypto, ts: seq<Tree>)
    requires TreeOk(Node(ts)) && NonNegSizes(KeysOf(c, ts))
    ensures KeysOf(c, [Node(ts)]) == [ChunkKey(c, KeysOf(c, ts))]
  {
    assert [Node(ts)][1..] == [];
    assert KeysOf(c, []) == [];
  }

  lemma FewTops(c: Crypto, ps: seq<Piece>, limit: nat) returns (top: seq<Tree>)
    requires PiecesOk(ps) && 0 < |ps| <= 8 && limit >= IndirectSize(1)
    ensures |top| == |ps| && TreesOk(top, 0) && TreeOk(Node(top)) && NonNegSizes(KeysOf(c, top))
    ensures forall i :: 0 <= i < |top| ==> top[i] == Leaf(ps[i])
    ensures Grow(c, ps) != []
    ensures MergeUp(c, Grow(c, ps), 0, limit) == if 8 + 128 * |top| <= limit then top else [Node(top)]
  {
    FewLeaves(c, ps);
    top := Grow(c, ps)[0];
    MergeStops(c, Grow(c, ps), 0, limit);
  }
}
