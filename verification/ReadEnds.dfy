/** What a client sees of a whole read: when its end is announced, which bytes it gets, and which chunks
    it asks for. */
module ReadEnds {
  import opened Bytes
  import opened OpaqueMeta
  import opened KeyTree
  import opened ChunkerRuns
  import opened RecordRuns
  import opened Coded
  import opened Reading
  import opened ReaderTable
  import opened Conservation
  import opened RoundTrip
  import opened RecordReads
  import opened Alignment

  /** The end has been announced, and nothing is pending. */
  predicate EndKnown(s: ReadState) { s.regions == [] <==> s.done > 0 }

  /** One answer, as the theorems about runs take it and as the code does. */
  lemma AnswerEnds(c: Crypto, s: ReadState, a: Answer)
    requires EndKnown(s)
    ensures EndKnown(AfterAnswer(c, s, a)) && EndKnown(ServedAnswer(c, s, a))
  {
    if s.regions == [] && a.Found? {
      assert Waiting(s.regions, a.h) == [];
      assert Expanded(c, [], a.cyph) == [];
    }
  }

  lemma {:induction false} AnswersEnd(c: Crypto, s: ReadState, answers: seq<Answer>)
    requires EndKnown(s)
    ensures EndKnown(Answered(c, s, answers))
    decreases |answers|
  {
    if answers != [] {
      AnswerEnds(c, s, answers[0]);
      AnswersEnd(c, AfterAnswer(c, s, answers[0]), answers[1..]);
    }
  }

  lemma {:induction false} ServedEnd(c: Crypto, s: ReadState, answers: seq<Answer>)
    requires EndKnown(s)
    ensures EndKnown(ServedRun(c, s, answers))
    decreases |answers|
  {
    if answers != [] {
      AnswerEnds(c, s, answers[0]);
      ServedEnd(c, ServedAnswer(c, s, answers[0]), answers[1..]);
    }
  }

  /** Some chunk has what is wanted. */
  lemma {:induction false} SomeWanted(ps: seq<Piece>, bo: nat, ro: nat, w: Want)
    requires !Past(bo, ro, w) && Reaches(bo, ro, |Content(ps)|, Records(ps), w) && ps != [] && w.start < w.end
    ensures Wanted(Spread(ps, bo, ro), w) != []
  {
    var g := Part(bo, ro, ps[0].data, ps[0].recs);
    var rest := Spread(ps[1..], bo + |ps[0].data|, ro + ps[0].recs);
    assert Spread(ps, bo, ro)[1..] == rest && Spread(ps, bo, ro)[0] == g;
    if |ps| == 1 {
      assert ps == [ps[0]];
      OnePiece(ps[0]);
    }
    if !Overlaps(g, w) {
      SomeWanted(ps[1..], bo + |ps[0].data|, ro + ps[0].recs, w);
    }
  }

  lemma SomeAdded(c: Crypto, top: seq<Tree>, w: Want)
    requires KidsOk(c, top) && Wanted(Spread(AllLeaves(top), 0, 0), w) != []
    ensures AddedRegions(KeysOf(c, top), 0, 0, w) != []
  {
    var items := AddedItems(c, top, 0, 0, w);
    AddedItemsAre(c, top, KeysOf(c, top), 0, 0, w);
    AddedNeeds(c, top, 0, 0, w);
    SelectAllIsExact(top, 0, 0, w);
  }

  /** The extent lies in the stream, as callers must see to. */
  predicate InStream(info: OpaqueInfo, w: Want) {
    0 <= w.start < w.end <= if w.byrec then InternalRecords(info) else InternalSize(info)
  }

  lemma TopsOfRun(c: Crypto, ops: seq<Op>, limit: nat) returns (top: seq<Tree>)
    requires ValidRun(ops, limit) && InfoOf(c, ops, limit).Indirect?
    ensures top != [] && KidsOk(c, top) && InfoOf(c, ops, limit) == Indirect(KeysOf(c, top))
  {
    EndFacts(ops, limit);
    top := TopTrees(c, EndState(ops, limit), limit);
    TopTreesSound(c, EndState(ops, limit), limit);
    TopTreesRepresentable(c, EndState(ops, limit), limit);
  }

  lemma KeysPending(c: Crypto, top: seq<Tree>, w: Want)
    requires top != [] && KidsOk(c, top) && InStream(Indirect(KeysOf(c, top)), w)
    ensures AddedRegions(KeysOf(c, top), 0, 0, w) != []
  {
    AllKeyFacts(c, top);
    SomeWanted(AllLeaves(top), 0, 0, w);
    SomeAdded(c, top, w);
  }

  lemma StartPending(c: Crypto, ops: seq<Op>, limit: nat, w: Want)
    requires ValidRun(ops, limit) && InStream(InfoOf(c, ops, limit), w) && InfoOf(c, ops, limit).Indirect?
    ensures AddedRegions(InfoOf(c, ops, limit).kl, 0, 0, w) != []
  {
    var top := TopsOfRun(c, ops, limit);
    KeysPending(c, top, w);
  }

  /** A read of any extent of a coded stream by bytes or by records, whatever the answers: nothing is
      pending if and only if the end has been announced. Inline data is announced at once, a read of
      chunks not before the first answer. */
  lemma EndsIffDone(c: Crypto, ops: seq<Op>, limit: nat, w: Want, answers: seq<Answer>)
    requires ValidRun(ops, limit) && InStream(InfoOf(c, ops, limit), w)
    ensures var s0 := AfterRead(IDLE, InfoOf(c, ops, limit), w);
            (s0.done == if InfoOf(c, ops, limit).Indirect? then 0 else 1) &&
            (s0.regions == [] <==> s0.done > 0) &&
            (Answered(c, s0, answers).regions == [] <==> Answered(c, s0, answers).done > 0) &&
            (ServedRun(c, s0, answers).regions == [] <==> ServedRun(c, s0, answers).done > 0)
  {
    var info := InfoOf(c, ops, limit);
    var s0 := AfterRead(IDLE, info, w);
    if info.Indirect? {
      StartPending(c, ops, limit, w);
      assert AddedRegions(info.kl, 0, 0, w) + [] == s0.regions;
    }
    assert EndKnown(s0);
    AnswersEnd(c, s0, answers);
    ServedEnd(c, s0, answers);
  }

  // ----- which bytes -----

  /** The piece has a byte of the extent. */
  ghost predicate HasByte(g: Part, lo: int, hi: int) { exists i: nat :: Covers(g, i) && lo <= i < hi }

  lemma OverlapsIff(g: Part, w: Want)
    requires !w.byrec && w.start < w.end && 0 < |g.data|
    ensures Overlaps(g, w) <==> HasByte(g, w.start, w.end)
  {
    if Overlaps(g, w) {
      var i := if g.ofs < w.start then w.start else g.ofs;
      assert Covers(g, i);
    }
  }

  lemma SameElements<T>(a: seq<T>, b: seq<T>)
    requires multiset(a) == multiset(b)
    ensures forall x :: x in a <==> x in b
  {
    forall x ensures x in a <==> x in b {
      assert x in a <==> x in multiset(a);
      assert x in b <==> x in multiset(b);
    }
  }

  lemma ExtentCovered(gs: seq<Part>, data: bytes, w: Want, got: seq<Part>)
    requires Rebuilds(gs, data) && !w.byrec && 0 <= w.start < w.end <= |data|
    requires multiset(got) == multiset(Wanted(gs, w))
    ensures forall g :: g in got ==> FitsAt(g, data) && HasByte(g, w.start, w.end)
    ensures CoversAll(got, w.start, w.end)
  {
    SameElements(got, Wanted(gs, w));
    forall g | g in got ensures FitsAt(g, data) && HasByte(g, w.start, w.end) {
      WantedMember(gs, w, g);
      var k :| 0 <= k < |gs| && gs[k] == g;
      assert FitsAt(gs[k], data);
      OverlapsIff(g, w);
    }
    forall i: nat | w.start <= i < w.end ensures Covered(got, i) {
      assert Covered(gs, i);
      var k :| 0 <= k < |gs| && Covers(gs[k], i);
      assert FitsAt(gs[k], data) && HasByte(gs[k], w.start, w.end);
      OverlapsIff(gs[k], w);
      WantedMember(gs, w, gs[k]);
      var j :| 0 <= j < |got| && got[j] == gs[k];
      assert Covers(got[j], i);
    }
  }

  lemma StreamRebuilds(ops: seq<Op>, limit: nat) returns (gs: seq<Part>)
    requires ValidRun(ops, limit)
    ensures gs == Spread(PiecesOf(ops, limit), 0, 0) && Rebuilds(gs, Written(ops))
  {
    PiecesFacts(ops, limit);
    SpreadRebuilds(PiecesOf(ops, limit));
    gs := Spread(PiecesOf(ops, limit), 0, 0);
  }

  /** A finished read of bytes has delivered all of them, each piece at its place, and no piece without
      one of them. */
  lemma ByteReadDelivers(c: Crypto, ops: seq<Op>, limit: nat, w: Want, store: ChunkStore, answers: seq<Answer>)
    requires ValidRun(ops, limit) && InfoOf(c, ops, limit).Indirect?
    requires !w.byrec && 0 <= w.start < w.end <= |Written(ops)|
    requires Stored(LogOf(c, ops, limit)) <= store.Items
    requires FromStore(answers, store) && forall a :: a in answers ==> a.Found?
    requires Answered(c, AfterRead(IDLE, InfoOf(c, ops, limit), w), answers).regions == []
    ensures var got := Answered(c, AfterRead(IDLE, InfoOf(c, ops, limit), w), answers).got;
            CoversAll(got, w.start, w.end) &&
            forall g :: g in got ==> FitsAt(g, Written(ops)) && HasByte(g, w.start, w.end)
  {
    var gs := StreamRebuilds(ops, limit);
    RangeReadIsExact(c, ops, limit, w, store, answers);
    ExtentCovered(gs, Written(ops), w, Answered(c, AfterRead(IDLE, InfoOf(c, ops, limit), w), answers).got);
  }

  /** A chunk overlaps wanted records exactly if it has bytes of them and does not begin inside the last
      one. */
  lemma RecordsIff(bounds: seq<nat>, end: nat, ofs: nat, p: Piece, first: nat, s: nat, e: nat)
    requires Increasing(bounds) && bounds[|bounds| - 1] == end && s < e < |bounds|
    requires PieceAligned(bounds, end, ofs, p, first) && 0 < |p.data|
    ensures var g := Part(ofs, first, p.data, p.recs);
            Overlaps(g, Want(s, e, true)) <==> HasByte(g, bounds[s], bounds[e]) && ofs <= bounds[e - 1]
  {
    var g := Part(ofs, first, p.data, p.recs);
    if HasByte(g, bounds[s], bounds[e]) {
      var i: nat :| Covers(g, i) && bounds[s] <= i < bounds[e];
      PieceWanted(bounds, end, ofs, p, first, s, e, i);
    } else if Overlaps(g, Want(s, e, true)) {
      var q := if p.recs == 0 then first - 1 else if first < s then s else first;
      PieceHolds(bounds, end, ofs, p, first, q);
      Ordered(bounds, s, q);
      Ordered(bounds, q + 1, e);
      var i: nat := if ofs < bounds[q] then bounds[q] else ofs;
      assert Covers(g, i);
      assert false;
    }
  }

  lemma LaidRecords(gs: seq<Part>, ps: seq<Piece>, bounds: seq<nat>, end: nat, s: nat, e: nat, got: seq<Part>)
    requires Laid(gs, ps) && Finished(ps, bounds, end) && s < e < |bounds|
    requires multiset(got) == multiset(Wanted(gs, Want(s, e, true)))
    ensures forall g :: g in got <==> g in gs && HasByte(g, bounds[s], bounds[e]) && g.ofs <= bounds[e - 1]
  {
    SameElements(got, Wanted(gs, Want(s, e, true)));
    forall g ensures g in got <==> g in gs && HasByte(g, bounds[s], bounds[e]) && g.ofs <= bounds[e - 1] {
      WantedMember(gs, Want(s, e, true), g);
      if g in gs {
        var k :| 0 <= k < |gs| && gs[k] == g;
        assert AlignedAt(bounds, end, ps, k) && PieceOk(ps[k]);
        RecordsIff(bounds, end, CutAt(ps, k), ps[k], Records(ps[..k]), s, e);
      }
    }
  }

  /** A finished read of records has delivered exactly the chunks that have bytes of them and do not
      begin inside the last one. */
  lemma RecordReadDelivers(c: Crypto, ops: seq<Op>, limit: nat, s: nat, e: nat, store: ChunkStore, answers: seq<Answer>)
    requires ValidRun(ops, limit) && InfoOf(c, ops, limit).Indirect? && s < e < |RecordBounds(ops)|
    requires Stored(LogOf(c, ops, limit)) <= store.Items
    requires FromStore(answers, store) && forall a :: a in answers ==> a.Found?
    requires Answered(c, AfterRead(IDLE, InfoOf(c, ops, limit), Want(s, e, true)), answers).regions == []
    ensures var got := Answered(c, AfterRead(IDLE, InfoOf(c, ops, limit), Want(s, e, true)), answers).got;
            var bounds := RecordBounds(ops);
            forall g :: g in got <==> g in Spread(PiecesOf(ops, limit), 0, 0) &&
                                      HasByte(g, bounds[s], bounds[e]) && g.ofs <= bounds[e - 1]
  {
    var w := Want(s, e, true);
    var got := Answered(c, AfterRead(IDLE, InfoOf(c, ops, limit), w), answers).got;
    RangeReadIsExact(c, ops, limit, w, store, answers);
    RunFinished(ops, limit);
    SpreadIsLaid(PiecesOf(ops, limit));
    LaidRecords(Spread(PiecesOf(ops, limit), 0, 0), PiecesOf(ops, limit), RecordBounds(ops), |Written(ops)|, s, e, got);
  }

  // ----- which requests -----

  ghost predicate AsksOnly(s: ReadState, store: ChunkStore) { forall h :: h in s.requested ==> h in store }

  lemma {:induction false} HashesFrom(rs: seq<Region>, h: OuterHash)
    requires h in HashesOf(rs)
    ensures exists r :: r in rs && r.key.ohash == h
  {
    if h in HashesOf(rs[1..]) {
      HashesFrom(rs[1..], h);
    } else {
      assert rs[0] in rs;
    }
  }

  lemma ItemInStore(c: Crypto, items: seq<Item>, store: ChunkStore, r: Region)
    requires AllItemsOk(c, items) && InStore(c, items, store) && r in RegionsOf(items)
    ensures r.key.ohash in store
  {
    var k :| 0 <= k < |RegionsOf(items)| && RegionsOf(items)[k] == r;
    assert ItemOk(c, items[k]) && items[k] in items;
    KeyFacts(c, items[k].tree);
    assert ChunkOf(c, items[k].tree) in Chunks(c, items[k].tree);
    assert ChunkOf(c, items[k].tree) in store.Items;
  }

  /** What is requested with an answer waits in the table. */
  lemma AskedWaits(c: Crypto, s: ReadState, a: Answer, h: OuterHash)
    requires h in AfterAnswer(c, s, a).requested && h !in s.requested
    ensures exists r :: r in AfterAnswer(c, s, a).regions && r.key.ohash == h
  {
    var new_ := Expanded(c, Waiting(s.regions, a.h), a.cyph);
    HashesFrom(new_, h);
    var r :| r in new_ && r.key.ohash == h;
    assert r in AfterAnswer(c, s, a).regions;
  }

  lemma AnswerAsksOnly(c: Crypto, s: ReadState, items': seq<Item>, missed': seq<Item>, a: Answer, store: ChunkStore)
    requires AsksOnly(s, store) && Tracks(c, AfterAnswer(c, s, a), items', missed') && InStore(c, items', store)
    ensures AsksOnly(AfterAnswer(c, s, a), store)
  {
    forall h | h in AfterAnswer(c, s, a).requested && h !in s.requested ensures h in store {
      AskedWaits(c, s, a, h);
      var r :| r in AfterAnswer(c, s, a).regions && r.key.ohash == h;
      ItemInStore(c, items', store, r);
    }
  }

  lemma {:induction false} AnswersAskOnly(c: Crypto, s: ReadState, items: seq<Item>, missed: seq<Item>,
                                          answers: seq<Answer>, store: ChunkStore)
    requires Tracks(c, s, items, missed) && InStore(c, items, store) && FromStore(answers, store) && AsksOnly(s, store)
    ensures AsksOnly(Answered(c, s, answers), store)
    decreases |answers|
  {
    if answers != [] {
      assert answers[0] in answers;
      var items', missed' := AnswerStep(c, s, items, missed, answers[0], store);
      AnswerAsksOnly(c, s, items', missed', answers[0], store);
      AnswersAskOnly(c, AfterAnswer(c, s, answers[0]), items', missed', answers[1..], store);
    }
  }

  lemma StartAsksOnly(c: Crypto, kl: seq<OpaqueKey>, w: Want, items: seq<Item>, store: ChunkStore)
    requires Tracks(c, AfterRead(IDLE, Indirect(kl), w), items, []) && InStore(c, items, store)
    ensures AsksOnly(AfterRead(IDLE, Indirect(kl), w), store)
  {
    var new_ := AddedRegions(kl, 0, 0, w);
    forall h | h in HashesOf(new_) ensures h in store {
      HashesFrom(new_, h);
      var r :| r in new_ && r.key.ohash == h;
      assert r in new_ + [];
      ItemInStore(c, items, store, r);
    }
  }

  /** A read asks for nothing but chunks that were handed out for the stream, whatever has been found
      or not: for nothing outside of any store that holds them. */
  lemma AsksForStreamOnly(c: Crypto, ops: seq<Op>, limit: nat, w: Want, store: ChunkStore, answers: seq<Answer>)
    requires ValidRun(ops, limit) && InfoOf(c, ops, limit).Indirect?
    requires Stored(LogOf(c, ops, limit)) <= store.Items && FromStore(answers, store)
    ensures forall h :: h in Answered(c, AfterRead(IDLE, InfoOf(c, ops, limit), w), answers).requested ==> h in store
  {
    var items := ReadStarts(c, ops, limit, w, store);
    StartAsksOnly(c, InfoOf(c, ops, limit).kl, w, items, store);
    AnswersAskOnly(c, AfterRead(IDLE, InfoOf(c, ops, limit), w), items, [], answers, store);
  }
}
