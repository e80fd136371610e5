/** What the coder returns and hands out for a whole stream, as functions of its data chunks. */
module Coded {
  import opened Bytes
  import opened OpaqueMeta
  import opened KeyTree
  import opened Levels
  import opened Build
  import opened Chunker
  import opened Alignment
  import opened RecordRuns

  /** The key chunks handed out while merging the levels upwards. */
  function MergeEvents(c: Crypto, f: Forest, lev: nat, limit: nat): seq<Event>
    requires lev < |f| && ForestOk(f, lev) && limit >= IndirectSize(1)
    decreases KeysFrom(f, lev), |f| - lev
  {
    if Done(f, lev, limit) then [] else
      assert LevelOk(f, lev);
      NodeOk(f[lev], lev);
      MergeLevelKeeps(c, f, lev);
      AddEvents(c, f, Node(f[lev])) + [NodeEvent(c, Node(f[lev]))] +
      MergeEvents(c, MergeLevel(c, f, lev), lev + 1, limit)
  }

  // ----- every chunk that will be asked for has been handed out -----

  function EntryOf(e: Event): (OuterHash, bytes) { (e.key.ohash, e.cyph) }

  /** The stored chunks, under their outer hashes. */
  function Stored(es: seq<Event>): set<(OuterHash, bytes)> {
    set e | e in es :: EntryOf(e)
  }

  lemma StoredConcat(es: seq<Event>, fs: seq<Event>)
    ensures Stored(es + fs) == Stored(es) + Stored(fs)
  {
  }

  lemma StoredOne(e: Event)
    ensures Stored([e]) == {EntryOf(e)}
  {
  }

  ghost predicate HeldTrees(c: Crypto, ts: seq<Tree>, s: set<(OuterHash, bytes)>) {
    forall i :: 0 <= i < |ts| ==> TreeOk(ts[i]) && Chunks(c, ts[i]) <= s
  }

  ghost predicate Held(c: Crypto, f: Forest, from: nat, s: set<(OuterHash, bytes)>) {
    forall i :: from <= i < |f| ==> HeldTrees(c, f[i], s)
  }

  lemma {:induction false} AllChunksHeld(c: Crypto, ts: seq<Tree>, s: set<(OuterHash, bytes)>)
    requires HeldTrees(c, ts, s)
    ensures AllChunks(c, ts) <= s
  {
    if ts != [] {
      assert ts[0] == ts[..][0];
      AllChunksHeld(c, ts[1..], s);
    }
  }

  /** A key chunk over held trees is held once it has been handed out itself. */
  lemma NodeHeld(c: Crypto, t: Tree, s: set<(OuterHash, bytes)>)
    requires TreeOk(t) && t.Node? && HeldTrees(c, t.kids, s) && EntryOf(NodeEvent(c, t)) in s
    ensures Chunks(c, t) <= s
  {
    AllChunksHeld(c, t.kids, s);
    KeyFacts(c, t);
  }

  lemma SplitHeld(c: Crypto, lo: seq<Tree>, hi: seq<Tree>, s: set<(OuterHash, bytes)>)
    requires HeldTrees(c, lo + hi, s)
    ensures HeldTrees(c, lo, s) && HeldTrees(c, hi, s)
  {
    forall i | 0 <= i < |lo| ensures TreeOk(lo[i]) && Chunks(c, lo[i]) <= s {
      assert lo[i] == (lo + hi)[i];
    }
    forall i | 0 <= i < |hi| ensures TreeOk(hi[i]) && Chunks(c, hi[i]) <= s {
      assert hi[i] == (lo + hi)[|lo| + i];
    }
  }

  lemma AppendHeld(c: Crypto, f: Forest, t: Tree, s: set<(OuterHash, bytes)>)
    requires Level(t) <= |f| && Held(c, f, Level(t), s) && TreeOk(t) && Chunks(c, t) <= s
    ensures Held(c, Append(f, t), Level(t), s)
  {
    var f1, lev := Append(f, t), Level(t);
    assert HeldTrees(c, f1[lev], s) by {
      assert lev < |f| ==> HeldTrees(c, f[lev], s);
    }
    assert forall i :: lev < i < |f1| ==> f1[i] == f[i];
  }

  lemma SetLevelHeld(c: Crypto, f: Forest, lev: nat, ts: seq<Tree>, s: set<(OuterHash, bytes)>)
    requires lev < |f| && Held(c, f, lev + 1, s) && HeldTrees(c, ts, s)
    ensures Held(c, SetLevel(f, lev, ts), lev, s)
  {
  }

  lemma OverflowStored(c: Crypto, f: Forest, t: Tree, s: set<(OuterHash, bytes)>) returns (nk: Tree, hi: seq<Tree>)
    requires TreeOk(t) && Level(t) <= |f| && ForestOk(f, Level(t))
    requires |Append(f, t)[Level(t)]| > MAXKEYS && Stored(AddEvents(c, f, t)) <= s
    ensures Level(t) < |f| == |Append(f, t)| && ForestOk(Append(f, t), Level(t) + 1)
    ensures nk.Node? && TreeOk(nk) && Level(nk) == Level(t) + 1
    ensures Append(f, t)[Level(t)] == nk.kids + hi
    ensures AddTree(c, f, t) == SetLevel(AddTree(c, Append(f, t), nk), Level(t), hi)
    ensures Stored(AddEvents(c, Append(f, t), nk)) <= s && EntryOf(NodeEvent(c, nk)) in s
  {
    nk, hi := Overflow(c, f, t);
    var es := AddEvents(c, Append(f, t), nk);
    assert AddEvents(c, f, t) == es + [NodeEvent(c, nk)];
    StoredConcat(es, [NodeEvent(c, nk)]);
    StoredOne(NodeEvent(c, nk));
  }

  lemma {:induction false} AddHeld(c: Crypto, f: Forest, t: Tree, s: set<(OuterHash, bytes)>)
    requires TreeOk(t) && Level(t) <= |f| && ForestOk(f, Level(t))
    requires Held(c, f, Level(t), s) && Chunks(c, t) <= s && Stored(AddEvents(c, f, t)) <= s
    ensures Held(c, AddTree(c, f, t), Level(t), s)
    decreases |f| - Level(t)
  {
    var f1, lev := Append(f, t), Level(t);
    AppendOk(f, t);
    AppendHeld(c, f, t, s);
    if |f1[lev]| > MAXKEYS {
      var nk, hi := OverflowStored(c, f, t, s);
      assert HeldTrees(c, f1[lev], s);
      SplitHeld(c, nk.kids, hi, s);
      NodeHeld(c, nk, s);
      AddHeld(c, f1, nk, s);
      SetLevelHeld(c, AddTree(c, f1, nk), lev, hi, s);
    }
  }

  lemma {:induction false} GrowHeld(c: Crypto, ps: seq<Piece>, s: set<(OuterHash, bytes)>)
    requires PiecesOk(ps) && Stored(Log(c, ps)) <= s
    ensures Held(c, Grow(c, ps), 0, s)
  {
    if ps != [] {
      var n := |ps| - 1;
      var f, t := Grow(c, ps[..n]), Leaf(ps[n]);
      var e := PieceEvent(c, ps[n], |Content(ps[..n])|);
      StoredConcat(Log(c, ps[..n]) + AddEvents(c, f, t), [e]);
      StoredConcat(Log(c, ps[..n]), AddEvents(c, f, t));
      StoredOne(e);
      KeyFacts(c, t);
      GrowHeld(c, ps[..n], s);
      AddHeld(c, f, t, s);
    }
  }

  lemma {:induction false} MergeHeld(c: Crypto, f: Forest, lev: nat, limit: nat, s: set<(OuterHash, bytes)>)
    requires lev < |f| && ForestOk(f, lev) && limit >= IndirectSize(1)
    requires Held(c, f, lev, s) && Stored(MergeEvents(c, f, lev, limit)) <= s
    ensures HeldTrees(c, MergeUp(c, f, lev, limit), s)
    decreases KeysFrom(f, lev), |f| - lev
  {
    if !Done(f, lev, limit) {
      assert LevelOk(f, lev) && HeldTrees(c, f[lev], s);
      NodeOk(f[lev], lev);
      MergeLevelKeeps(c, f, lev);
      var t, f' := Node(f[lev]), MergeLevel(c, f, lev);
      var rest := MergeEvents(c, f', lev + 1, limit);
      StoredConcat(AddEvents(c, f, t) + [NodeEvent(c, t)], rest);
      StoredConcat(AddEvents(c, f, t), [NodeEvent(c, t)]);
      StoredOne(NodeEvent(c, t));
      NodeHeld(c, t, s);
      AddHeld(c, f, t, s);
      MergeLevelHeld(c, AddTree(c, f, t), lev, s);
      MergeHeld(c, f', lev + 1, limit, s);
    }
  }

  lemma MergeLevelHeld(c: Crypto, f: Forest, lev: nat, s: set<(OuterHash, bytes)>)
    requires lev < |f| && Held(c, f, lev + 1, s)
    ensures Held(c, SetLevel(f, lev, []), lev + 1, s)
  {
  }

  // ----- the result of a whole run -----

  /** The number of records `finish` puts in an inline result. */
  function InlineRecords(marks: seq<nat>, avail: nat): nat {
    if |marks| > 1 && marks[|marks| - 1] == avail then |marks| - 1 else |marks|
  }

  ghost predicate InlineFits(s: State, limit: nat) {
    s.pieces == [] && DirectSize(|s.pending|, InlineRecords(s.marks, |s.pending|)) <= limit
  }

  /** `finish` is called on a non-empty stream, with a limit that admits one key. */
  ghost predicate CanFinish(s: State, limit: nat) {
    Inv(s, MAX_CHUNK - 1) && 0 < Total(s) && limit >= IndirectSize(1)
  }

  lemma FlushedPieces(s: State)
    requires Inv(s, MAX_CHUNK - 1) && 0 < Total(s)
    ensures PiecesOk(Flush(s).pieces) && Flush(s).pieces != []
    ensures |Content(Flush(s).pieces)| == Total(s)
  {
    FlushFinishes(s);
  }

  ghost function TopTrees(c: Crypto, s: State, limit: nat): seq<Tree>
    requires CanFinish(s, limit)
  {
    FlushedPieces(s);
    MergeUp(c, Grow(c, Flush(s).pieces), 0, limit)
  }

  lemma InlineInfo(s: State)
    requires Inv(s, MAX_CHUNK - 1) && 0 < Total(s) && s.pieces == []
    ensures var n := InlineRecords(s.marks, |s.pending|);
            0 < n <= |s.pending| && n == |Bounds(s.starts, Total(s))| - 1 && Stream(s) == s.pending
  {
    var n := |s.marks|;
    assert Content(s.pieces) == [] && Records(s.pieces) == 0;
    assert s.starts[0 + (n - 1)] == 0 + s.marks[n - 1];
    IncreasingCount(s.marks, n, s.marks[n - 1] + 1);
    assert s.marks[0] == 0;
  }

  ghost function FinishInfo(c: Crypto, s: State, limit: nat): OpaqueInfo
    requires CanFinish(s, limit)
  {
    if InlineFits(s, limit) then
      InlineInfo(s);
      Direct(s.pending, InlineRecords(s.marks, |s.pending|))
    else
      Indirect(KeysOf(c, TopTrees(c, s, limit)))
  }

  /** Everything handed out by the end. */
  ghost function FinishLog(c: Crypto, s: State, limit: nat): seq<Event>
    requires CanFinish(s, limit)
  {
    if InlineFits(s, limit) then [] else
      FlushedPieces(s);
      Log(c, Flush(s).pieces) + MergeEvents(c, Grow(c, Flush(s).pieces), 0, limit)
  }

  /** The top keys stand for the whole stream, in order, and every chunk they lead to has been
      handed out. */
  lemma TopTreesSound(c: Crypto, s: State, limit: nat)
    requires CanFinish(s, limit) && !InlineFits(s, limit)
    ensures var top := TopTrees(c, s, limit);
            0 < |top| <= MAXKEYS && IndirectSize(|top|) <= limit &&
            AllLeaves(top) == Flush(s).pieces && HeldTrees(c, top, Stored(FinishLog(c, s, limit)))
  {
    FlushedPieces(s);
    var ps := Flush(s).pieces;
    var f, all := Grow(c, ps), Stored(FinishLog(c, s, limit));
    GrowOrder(c, ps);
    StoredConcat(Log(c, ps), MergeEvents(c, f, 0, limit));
    GrowHeld(c, ps, all);
    MergeHeld(c, f, 0, limit, all);
  }

  /** Below 2^63 bytes every key of the tree can be written and read back. */
  lemma TopTreesRepresentable(c: Crypto, s: State, limit: nat)
    requires CanFinish(s, limit) && !InlineFits(s, limit) && Total(s) < TWO63
    ensures forall i :: 0 <= i < |TopTrees(c, s, limit)| ==> Representable(TopTrees(c, s, limit)[i])
  {
    FlushedPieces(s);
    var ps, top := Flush(s).pieces, TopTrees(c, s, limit);
    TopTreesSound(c, s, limit);
    LevelsFit(c, ps);
    forall i | 0 <= i < |top| ensures Representable(top[i]) {
      KidsContent(top, i);
    }
  }

  /** The result has the size and the records of the stream. */
  lemma FinishTotals(c: Crypto, s: State, limit: nat)
    requires CanFinish(s, limit)
    ensures InternalSize(FinishInfo(c, s, limit)) == Total(s)
    ensures InternalRecords(FinishInfo(c, s, limit)) == |Bounds(s.starts, Total(s))| - 1
  {
    if InlineFits(s, limit) {
      InlineTotals(c, s, limit);
    } else {
      TopTotals(c, s, limit);
    }
  }

  lemma InlineTotals(c: Crypto, s: State, limit: nat)
    requires CanFinish(s, limit) && InlineFits(s, limit)
    ensures InternalSize(FinishInfo(c, s, limit)) == Total(s)
    ensures InternalRecords(FinishInfo(c, s, limit)) == |Bounds(s.starts, Total(s))| - 1
  {
    InlineInfo(s);
    assert Content(s.pieces) == [];
  }

  lemma TopTotals(c: Crypto, s: State, limit: nat)
    requires CanFinish(s, limit) && !InlineFits(s, limit)
    ensures SumSizes(KeysOf(c, TopTrees(c, s, limit))) == Total(s)
    ensures SumRecs(KeysOf(c, TopTrees(c, s, limit))) == |Bounds(s.starts, Total(s))| - 1
  {
    TopTreesSound(c, s, limit);
    AllKeyFacts(c, TopTrees(c, s, limit));
    FlushedTotals(s);
  }

  lemma FlushedTotals(s: State)
    requires Inv(s, MAX_CHUNK - 1)
    ensures |Content(Flush(s).pieces)| == Total(s)
    ensures Records(Flush(s).pieces) == |Bounds(s.starts, Total(s))| - 1
  {
    FlushFinishes(s);
  }

  /** It never takes more than `limit` bytes, and decodes to itself. */
  lemma FinishFitsLimit(c: Crypto, s: State, limit: nat)
    requires CanFinish(s, limit) && Total(s) < TWO63
    ensures var i := FinishInfo(c, s, limit);
            Storable(i) && |PutInfo(i)| <= limit && GetInfo(PutInfo(i)) == i
  {
    var i := FinishInfo(c, s, limit);
    if InlineFits(s, limit) {
      InlineInfo(s);
    } else {
      TopTreesSound(c, s, limit);
      TopTreesRepresentable(c, s, limit);
      TopKeysFit(c, TopTrees(c, s, limit));
    }
    InfoRoundTrip(i);
    InfoLength(i);
  }

  lemma TopKeysFit(c: Crypto, top: seq<Tree>)
    requires forall i :: 0 <= i < |top| ==> TreeOk(top[i]) && Representable(top[i])
    ensures AllFit(KeysOf(c, top)) && AllSane(KeysOf(c, top))
  {
    AllKeyFacts(c, top);
    forall i | 0 <= i < |top| ensures Fits(KeysOf(c, top)[i]) {
      KeyFits(c, top[i]);
    }
  }
}
