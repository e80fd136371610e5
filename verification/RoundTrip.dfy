/** Coding a stream and reading it back: from any store that holds the chunks handed out, in any
    order of arrival, a read gives exactly the data chunks that overlap what was asked for, and a
    read of everything gives back the stream. */
module RoundTrip {
  import opened Bytes
  import opened OpaqueMeta
  import opened KeyTree
  import opened Build
  import opened Chunker
  import opened ChunkerRuns
  import opened RecordRuns
  import opened Coded
  import opened Reading
  import opened ReaderTable
  import opened Conservation

  // ----- a whole run of the coder -----

  /** What is counted in an `int` while one write is taken in stays below 2^31. */
  predicate ShortWrites(ops: seq<Op>) {
    forall i :: 0 <= i < |ops| && ops[i].Write? ==> |ops[i].data| <= TWO31 - MAX_CHUNK
  }

  /** The marks close no empty record, the writes are short, the stream is not empty and below
      2^63 bytes, and the metadata limit admits one key. */
  ghost predicate ValidRun(ops: seq<Op>, limit: nat) {
    Ready(START) && Run(START, ops).Some? && ShortWrites(ops) && 0 < |Written(ops)| < TWO63 &&
    limit >= IndirectSize(1)
  }

  ghost function EndState(ops: seq<Op>, limit: nat): (s: State)
    requires ValidRun(ops, limit)
  {
    Run(START, ops).value
  }

  lemma EndFacts(ops: seq<Op>, limit: nat)
    requires ValidRun(ops, limit)
    ensures var s := EndState(ops, limit);
            CanFinish(s, limit) && Stream(s) == Written(ops) && Total(s) == |Written(ops)|
  {
    StartInv();
    RunInv(START, ops);
    RunStream(START, ops);
    assert Stream(START) == [];
    assert Stream(START) + Written(ops) == Written(ops);
  }

  ghost function InfoOf(c: Crypto, ops: seq<Op>, limit: nat): OpaqueInfo
    requires ValidRun(ops, limit)
  {
    EndFacts(ops, limit);
    FinishInfo(c, EndState(ops, limit), limit)
  }

  ghost function LogOf(c: Crypto, ops: seq<Op>, limit: nat): seq<Event>
    requires ValidRun(ops, limit)
  {
    EndFacts(ops, limit);
    FinishLog(c, EndState(ops, limit), limit)
  }

  /** The data chunks of the stream. */
  ghost function PiecesOf(ops: seq<Op>, limit: nat): seq<Piece>
    requires ValidRun(ops, limit)
  {
    EndFacts(ops, limit);
    Flush(EndState(ops, limit)).pieces
  }

  lemma PiecesFacts(ops: seq<Op>, limit: nat)
    requires ValidRun(ops, limit)
    ensures PiecesOk(PiecesOf(ops, limit)) && Content(PiecesOf(ops, limit)) == Written(ops)
  {
    EndFacts(ops, limit);
    FlushFinishes(EndState(ops, limit));
  }

  // ----- a whole read -----

  /** What a read starts with: regions for the wanted data chunks, and only for those. */
  lemma ReadStarts(c: Crypto, ops: seq<Op>, limit: nat, w: Want, store: ChunkStore) returns (items: seq<Item>)
    requires ValidRun(ops, limit) && InfoOf(c, ops, limit).Indirect?
    requires Stored(LogOf(c, ops, limit)) <= store.Items
    ensures var s := AfterRead(IDLE, InfoOf(c, ops, limit), w);
            Tracks(c, s, items, []) && InStore(c, items, store) && s.got == [] && AllRequested(s)
    ensures Needs(items) == Wanted(Spread(PiecesOf(ops, limit), 0, 0), w)
  {
    EndFacts(ops, limit);
    var s := EndState(ops, limit);
    var top := TopTrees(c, s, limit);
    TopTreesSound(c, s, limit);
    TopTreesRepresentable(c, s, limit);
    assert HeldTrees(c, top, Stored(FinishLog(c, s, limit)));
    items := TopItems(c, top, w, Stored(FinishLog(c, s, limit)), store);
    SelectAllIsExact(top, 0, 0, w);
    StartState(c, KeysOf(c, top), w, items);
  }

  lemma StartState(c: Crypto, kl: seq<OpaqueKey>, w: Want, items: seq<Item>)
    requires AllItemsOk(c, items) && AddedRegions(kl, 0, 0, w) == RegionsOf(items)
    ensures var s := AfterRead(IDLE, Indirect(kl), w);
            Tracks(c, s, items, []) && s.got == [] && AllRequested(s)
  {
    HashesAreAll(AddedRegions(kl, 0, 0, w));
    assert RegionsOf(items) + [] == RegionsOf(items);
  }

  lemma TopItems(c: Crypto, top: seq<Tree>, w: Want, s: set<(OuterHash, bytes)>, store: ChunkStore)
    returns (items: seq<Item>)
    requires KidsOk(c, top) && HeldTrees(c, top, s) && s <= store.Items
    ensures AllItemsOk(c, items) && InStore(c, items, store)
    ensures AddedRegions(KeysOf(c, top), 0, 0, w) == RegionsOf(items)
    ensures Needs(items) == SelectAll(top, 0, 0, w)
  {
    items := AddedItems(c, top, 0, 0, w);
    AddedItemsAre(c, top, KeysOf(c, top), 0, 0, w);
    AddedNeeds(c, top, 0, 0, w);
    forall i | i in items ensures ItemOk(c, i) && Chunks(c, i.tree) <= store.Items {
      AddedItemsOk(c, top, 0, 0, w, i);
      AddedFrom(c, top, 0, 0, w, i);
      var k :| 0 <= k < |top| && top[k] == i.tree;
    }
  }

  /** A finished read has delivered exactly the data chunks that overlap the wanted extent, each
      once, whatever the order of the answers. */
  lemma RangeReadIsExact(c: Crypto, ops: seq<Op>, limit: nat, w: Want, store: ChunkStore, answers: seq<Answer>)
    requires ValidRun(ops, limit) && InfoOf(c, ops, limit).Indirect?
    requires Stored(LogOf(c, ops, limit)) <= store.Items
    requires FromStore(answers, store) && forall a :: a in answers ==> a.Found?
    requires Answered(c, AfterRead(IDLE, InfoOf(c, ops, limit), w), answers).regions == []
    ensures var s := Answered(c, AfterRead(IDLE, InfoOf(c, ops, limit), w), answers);
            multiset(s.got) == multiset(Wanted(Spread(PiecesOf(ops, limit), 0, 0), w)) && s.lost == []
  {
    var items := ReadStarts(c, ops, limit, w, store);
    CompleteRead(c, AfterRead(IDLE, InfoOf(c, ops, limit), w), items, answers, store);
  }

  lemma CompleteRead(c: Crypto, s0: ReadState, items: seq<Item>, answers: seq<Answer>, store: ChunkStore)
    requires Tracks(c, s0, items, []) && InStore(c, items, store) && s0.got == []
    requires FromStore(answers, store) && forall a :: a in answers ==> a.Found?
    requires Answered(c, s0, answers).regions == []
    ensures multiset(Answered(c, s0, answers).got) == multiset(Needs(items))
    ensures Answered(c, s0, answers).lost == []
  {
    var items', missed' := RunConserves(c, s0, items, [], answers, store);
    assert items' == [] && missed' == [];
    NothingLeft(s0.got, Answered(c, s0, answers).got, Needs([]), Needs(items));
  }

  lemma NothingLeft(a: seq<Part>, b: seq<Part>, none: seq<Part>, need: seq<Part>)
    requires a == [] && none == []
    requires multiset(b) + multiset(none) + multiset(none) == multiset(a) + multiset(need) + multiset(none)
    ensures multiset(b) == multiset(need)
  {
    var e := multiset(none);
    assert e == multiset{} && multiset(a) == e;
    assert multiset(b) + e + e == multiset(b) && e + multiset(need) + e == multiset(need);
  }

  /** At every moment of a read of all bytes, delivered, still needed and missing data chunks are
      together those of the whole stream, each once, whatever has been found or not so far. */
  lemma FullReadPartitions(c: Crypto, ops: seq<Op>, limit: nat, store: ChunkStore, answers: seq<Answer>)
    returns (items: seq<Item>, missed: seq<Item>)
    requires ValidRun(ops, limit) && InfoOf(c, ops, limit).Indirect?
    requires Stored(LogOf(c, ops, limit)) <= store.Items && FromStore(answers, store)
    ensures var s := Answered(c, AfterRead(IDLE, InfoOf(c, ops, limit), Want(0, |Written(ops)|, false)), answers);
            Tracks(c, s, items, missed) && AllRequested(s) &&
            Accounted(s, items, missed) == multiset(Spread(PiecesOf(ops, limit), 0, 0))
  {
    var w := Want(0, |Written(ops)|, false);
    var s0 := AfterRead(IDLE, InfoOf(c, ops, limit), w);
    var start := ReadStarts(c, ops, limit, w, store);
    items, missed := RunConserves(c, s0, start, [], answers, store);
    RunRequests(c, s0, answers);
    PiecesFacts(ops, limit);
    AllWanted(PiecesOf(ops, limit), 0, 0, w);
    OnlyNeeded(s0.got, Needs(start), Needs([]));
  }

  lemma OnlyNeeded(a: seq<Part>, need: seq<Part>, none: seq<Part>)
    requires a == [] && none == []
    ensures multiset(a) + multiset(need) + multiset(none) == multiset(need)
  {
    assert multiset(a) == multiset{} && multiset(none) == multiset{};
    assert multiset{} + multiset(need) + multiset{} == multiset(need);
  }

  // ----- the stream from its pieces -----

  predicate Covers(g: Part, i: nat) { g.ofs <= i < g.ofs + |g.data| }

  ghost predicate Covered(gs: seq<Part>, i: nat) { exists k :: 0 <= k < |gs| && Covers(gs[k], i) }

  /** The pieces carry bytes of the stream at their places, and every byte is in exactly one. */
  ghost predicate Rebuilds(gs: seq<Part>, data: bytes) {
    (forall k :: 0 <= k < |gs| ==> FitsAt(gs[k], data)) &&
    (forall i :: 0 <= i < |data| ==> Covered(gs, i)) &&
    (forall i: nat, j, k :: 0 <= j < k < |gs| && Covers(gs[j], i) ==> !Covers(gs[k], i))
  }

  ghost predicate FitsAt(g: Part, data: bytes) {
    0 < |g.data| && g.ofs + |g.data| <= |data| && g.data == data[g.ofs..g.ofs + |g.data|]
  }

  lemma TwiceCounts<T>(s: seq<T>, j: nat, k: nat)
    requires j < k < |s| && s[j] == s[k]
    ensures multiset(s)[s[j]] >= 2
  {
    assert s == s[..k] + s[k..];
    assert s[..k][j] == s[j] && s[k..][0] == s[k];
  }

  lemma OnceCounts<T>(s: seq<T>, k: nat)
    requires k < |s| && forall j :: 0 <= j < |s| && j != k ==> s[j] != s[k]
    ensures multiset(s)[s[k]] == 1
  {
    assert s == s[..k] + [s[k]] + s[k + 1..];
    assert s[k] !in s[..k] && s[k] !in s[k + 1..];
  }

  lemma IndexIn<T>(s: seq<T>, t: seq<T>, j: nat) returns (k: nat)
    requires multiset(s) == multiset(t) && j < |t|
    ensures k < |s| && s[k] == t[j]
  {
    assert t[j] in multiset(t);
    assert t[j] in s;
    k :| 0 <= k < |s| && s[k] == t[j];
  }

  /** The order of the pieces does not matter. */
  lemma RebuildsInAnyOrder(gs: seq<Part>, hs: seq<Part>, data: bytes)
    requires Rebuilds(gs, data) && multiset(gs) == multiset(hs)
    ensures Rebuilds(hs, data)
  {
    forall k | 0 <= k < |hs| ensures FitsAt(hs[k], data) {
      var a := IndexIn(gs, hs, k);
    }
    forall i | 0 <= i < |data| ensures Covered(hs, i) {
      assert Covered(gs, i);
      var a :| 0 <= a < |gs| && Covers(gs[a], i);
      var k := IndexIn(hs, gs, a);
    }
    forall i: nat, j, k | 0 <= j < k < |hs| && Covers(hs[j], i) ensures !Covers(hs[k], i) {
      NotTwice(gs, hs, data, i, j, k);
    }
  }

  lemma NotTwice(gs: seq<Part>, hs: seq<Part>, data: bytes, i: nat, j: nat, k: nat)
    requires Rebuilds(gs, data) && multiset(gs) == multiset(hs)
    requires j < k < |hs| && Covers(hs[j], i)
    ensures !Covers(hs[k], i)
  {
    if Covers(hs[k], i) {
      var a := IndexIn(gs, hs, j);
      var b := IndexIn(gs, hs, k);
      if a == b {
        TwiceCounts(hs, j, k);
        forall d | 0 <= d < |gs| && d != a ensures gs[d] != gs[a] {
          assert Covers(gs[a], i);
        }
        OnceCounts(gs, a);
      }
    }
  }

  /** The pieces of a stream, end to end, carry it. */
  lemma SpreadRebuilds(ps: seq<Piece>)
    requires PiecesOk(ps)
    ensures Rebuilds(Spread(ps, 0, 0), Content(ps))
  {
    var gs, data := Spread(ps, 0, 0), Content(ps);
    SpreadLength(ps, 0, 0);
    forall k | 0 <= k < |gs| ensures FitsAt(gs[k], data) {
      PieceFits(ps, k);
    }
    forall i | 0 <= i < |data| ensures Covered(gs, i) {
      var k := PieceCovers(ps, 0, 0, i);
    }
    forall i: nat, j, k | 0 <= j < k < |gs| && Covers(gs[j], i) ensures !Covers(gs[k], i) {
      PiecesApart(ps, j, k);
    }
  }

  lemma PieceFits(ps: seq<Piece>, k: nat)
    requires PiecesOk(ps) && k < |ps|
    ensures |Spread(ps, 0, 0)| == |ps| && FitsAt(Spread(ps, 0, 0)[k], Content(ps))
  {
    SpreadTiles(ps, 0, 0, k);
    assert PieceOk(ps[k]);
    var a, b, d := Content(ps[..k]), ps[k].data, Content(ps[k + 1..]);
    assert ps == ps[..k] + ([ps[k]] + ps[k + 1..]);
    ContentConcat(ps[..k], [ps[k]] + ps[k + 1..]);
    ContentConcat([ps[k]], ps[k + 1..]);
    OnePiece(ps[k]);
    assert a + (b + d) == Content(ps);
    assert (a + (b + d))[|a|..|a| + |b|] == b;
  }

  lemma {:induction false} PieceCovers(ps: seq<Piece>, bo: nat, ro: nat, i: nat) returns (k: nat)
    requires bo <= i < bo + |Content(ps)|
    ensures k < |Spread(ps, bo, ro)| && Covers(Spread(ps, bo, ro)[k], i)
  {
    if i < bo + |ps[0].data| {
      k := 0;
    } else {
      k := PieceCovers(ps[1..], bo + |ps[0].data|, ro + ps[0].recs, i);
      k := k + 1;
    }
  }

  lemma PiecesApart(ps: seq<Piece>, j: nat, k: nat)
    requires j < k < |ps|
    ensures |Spread(ps, 0, 0)| == |ps|
    ensures Spread(ps, 0, 0)[j].ofs + |Spread(ps, 0, 0)[j].data| <= Spread(ps, 0, 0)[k].ofs
  {
    SpreadTiles(ps, 0, 0, j);
    SpreadTiles(ps, 0, 0, k);
    assert ps[..k] == ps[..j] + ([ps[j]] + ps[j + 1..k]);
    ContentConcat(ps[..j], [ps[j]] + ps[j + 1..k]);
    ContentConcat([ps[j]], ps[j + 1..k]);
    OnePiece(ps[j]);
  }

  /** A read of the whole stream, answered from the store in any order, delivers every byte of it
      exactly once, at its place. */
  lemma FullReadRebuilds(c: Crypto, ops: seq<Op>, limit: nat, store: ChunkStore, answers: seq<Answer>)
    requires ValidRun(ops, limit) && Stored(LogOf(c, ops, limit)) <= store.Items
    requires FromStore(answers, store) && forall a :: a in answers ==> a.Found?
    requires var info := InfoOf(c, ops, limit);
             Answered(c, AfterRead(IDLE, info, Want(0, InternalSize(info), false)), answers).regions == []
    ensures var info := InfoOf(c, ops, limit);
            var s := Answered(c, AfterRead(IDLE, info, Want(0, InternalSize(info), false)), answers);
            Rebuilds(s.got, Written(ops)) && s.lost == []
  {
    var info := InfoOf(c, ops, limit);
    var w := Want(0, InternalSize(info), false);
    PiecesFacts(ops, limit);
    EndFacts(ops, limit);
    FinishTotals(c, EndState(ops, limit), limit);
    var ps := PiecesOf(ops, limit);
    if info.Indirect? {
      RangeReadIsExact(c, ops, limit, w, store, answers);
      AllWanted(ps, 0, 0, w);
      SpreadRebuilds(ps);
      RebuildsInAnyOrder(Spread(ps, 0, 0), Answered(c, AfterRead(IDLE, info, w), answers).got, Written(ops));
    } else {
      InlineRead(c, ops, limit, w);
      NothingPending(c, AfterRead(IDLE, info, w), answers);
    }
  }

  /** Inline data is the whole stream. */
  lemma InlineRead(c: Crypto, ops: seq<Op>, limit: nat, w: Want)
    requires ValidRun(ops, limit) && !InfoOf(c, ops, limit).Indirect?
    ensures var s := AfterRead(IDLE, InfoOf(c, ops, limit), w);
            Rebuilds(s.got, Written(ops)) && s.lost == [] && s.regions == []
  {
    EndFacts(ops, limit);
    InlineInfo(EndState(ops, limit));
    var g := AfterRead(IDLE, InfoOf(c, ops, limit), w).got;
    assert g[0].ofs == 0 && g[0].data == Written(ops);
    assert Written(ops)[0..|Written(ops)|] == Written(ops);
  }

  lemma {:induction false} NothingPending(c: Crypto, s: ReadState, answers: seq<Answer>)
    requires s.regions == []
    ensures var s' := Answered(c, s, answers); s'.regions == [] && s'.got == s.got && s'.lost == s.lost
    decreases |answers|
  {
    if answers != [] {
      NothingPending(c, AfterAnswer(c, s, answers[0]), answers[1..]);
    }
  }
}
