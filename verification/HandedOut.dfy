/** What a whole run hands to the consumer, said of each chunk: where it is filed, how it is encrypted
    and what it holds. */
module HandedOut {
  import opened Bytes
  import opened OpaqueMeta
  import opened KeyTree
  import opened Levels
  import opened Build
  import opened Chunker
  import opened ChunkerRuns
  import opened RecordRuns
  import opened Coded
  import opened RoundTrip
  import opened Alignment
  import Adler32

  // ----- one chunk -----

  /** The chunk is filed under the hash of what is handed out, and encrypted with the hash of its own
      cleartext. */
  ghost predicate WellFiled(c: Crypto, e: Event) {
    e.key.ohash == c.sha512(e.cyph) && e.key.key == c.sha256(c.ctr(e.key.key, e.cyph)) && e.key.osize == |e.cyph|
  }

  /** A data chunk holds the bytes of the stream that it says, and its key says so. */
  ghost predicate HoldsData(c: Crypto, e: Event, data: bytes)
    requires e.DataChunk?
  {
    0 < e.size && e.ofs + e.size <= |data| &&
    var d := data[e.ofs..e.ofs + e.size];
    c.ctr(e.key.key, e.cyph) == d && e.key.level == 0 && e.key.isize == e.size && e.key.isum == Adler32.Of(d)
  }

  /** A key chunk holds one to eight keys of one level, and its key is above them and sums them up. */
  ghost predicate HoldsKeys(c: Crypto, e: Event)
    requires e.KeyChunk?
  {
    0 < |e.subkeys| <= MAXKEYS && c.ctr(e.key.key, e.cyph) == PutKeys(e.subkeys) &&
    (forall k :: k in e.subkeys ==> k.level + 1 == e.key.level) &&
    e.key.isize == SumSizes(e.subkeys) && e.key.irecs == SumRecs(e.subkeys)
  }

  lemma Sealed(c: Crypto, plain: bytes)
    ensures c.ctr(c.sha256(plain), Encrypt(c, plain)) == plain && |Encrypt(c, plain)| == |plain|
  {
    var k := c.sha256(plain);
    assert |c.ctr(k, plain)| == |plain| && c.ctr(k, c.ctr(k, plain)) == plain;
  }

  lemma NodeHandedOut(c: Crypto, t: Tree)
    requires TreeOk(t) && t.Node?
    ensures WellFiled(c, NodeEvent(c, t)) && HoldsKeys(c, NodeEvent(c, t))
  {
    Sealed(c, Plain(c, t));
    var ks := KeysOf(c, t.kids);
    forall k | k in ks ensures k.level == Level(t.kids[0]) {
      var i :| 0 <= i < |ks| && ks[i] == k;
      KeyFacts(c, t.kids[i]);
    }
    KeyFacts(c, t.kids[0]);
  }

  lemma PieceHandedOut(c: Crypto, p: Piece, ofs: nat, data: bytes)
    requires PieceOk(p) && ofs + |p.data| <= |data| && data[ofs..ofs + |p.data|] == p.data
    ensures WellFiled(c, PieceEvent(c, p, ofs)) && HoldsData(c, PieceEvent(c, p, ofs), data)
  {
    Sealed(c, p.data);
  }

  // ----- all chunks -----

  /** The data chunks among the chunks handed out. */
  function DataOnly(es: seq<Event>): seq<Event> {
    if es == [] then [] else
      DataOnly(es[..|es| - 1]) + if es[|es| - 1].DataChunk? then [es[|es| - 1]] else []
  }

  lemma DataSnoc(es: seq<Event>, e: Event)
    ensures DataOnly(es + [e]) == DataOnly(es) + if e.DataChunk? then [e] else []
  {
    assert (es + [e])[..|es|] == es;
  }

  lemma {:induction false} DataConcat(es: seq<Event>, fs: seq<Event>)
    ensures DataOnly(es + fs) == DataOnly(es) + DataOnly(fs)
  {
    if fs == [] {
      Nothing2(es);
      Nothing2(DataOnly(es));
    } else {
      var n := |fs| - 1;
      DataConcat(es, fs[..n]);
      SplitSnoc(es, fs);
      DataSnoc(es + fs[..n], fs[n]);
      Assoc2(DataOnly(es), DataOnly(fs[..n]), if fs[n].DataChunk? then [fs[n]] else []);
    }
  }

  lemma Nothing2(es: seq<Event>)
    ensures es + [] == es
  {
  }

  lemma SplitSnoc(es: seq<Event>, fs: seq<Event>)
    requires fs != []
    ensures es + fs == (es + fs[..|fs| - 1]) + [fs[|fs| - 1]]
  {
  }

  lemma Assoc2(es: seq<Event>, fs: seq<Event>, gs: seq<Event>)
    ensures (es + fs) + gs == es + (fs + gs)
  {
  }

  /** All of these are key chunks of sound trees. */
  ghost predicate AllNodes(c: Crypto, es: seq<Event>) {
    forall e :: e in es ==> e.KeyChunk? && WellFiled(c, e) && HoldsKeys(c, e)
  }

  lemma {:induction false} NoData(c: Crypto, es: seq<Event>)
    requires AllNodes(c, es)
    ensures DataOnly(es) == []
  {
    if es != [] {
      assert es[|es| - 1] in es;
      NoData(c, es[..|es| - 1]);
    }
  }

  lemma AllNodesConcat(c: Crypto, es: seq<Event>, fs: seq<Event>)
    requires AllNodes(c, es) && AllNodes(c, fs)
    ensures AllNodes(c, es + fs)
  {
  }

  lemma {:induction false} AddNodes(c: Crypto, f: Forest, t: Tree)
    requires TreeOk(t) && Level(t) <= |f| && ForestOk(f, Level(t))
    ensures AllNodes(c, AddEvents(c, f, t))
    decreases |f| - Level(t)
  {
    var f1, lev := Append(f, t), Level(t);
    AppendOk(f, t);
    if |f1[lev]| > MAXKEYS {
      var nk := PushUp(c, f1[lev], lev);
      AddNodes(c, f1, nk);
      NodeHandedOut(c, nk);
      AllNodesConcat(c, AddEvents(c, f1, nk), [NodeEvent(c, nk)]);
    }
  }

  lemma {:induction false} MergeNodes(c: Crypto, f: Forest, lev: nat, limit: nat)
    requires lev < |f| && ForestOk(f, lev) && limit >= IndirectSize(1)
    ensures AllNodes(c, MergeEvents(c, f, lev, limit))
    decreases KeysFrom(f, lev), |f| - lev
  {
    if !Done(f, lev, limit) {
      assert LevelOk(f, lev);
      NodeOk(f[lev], lev);
      MergeLevelKeeps(c, f, lev);
      var t, f' := Node(f[lev]), MergeLevel(c, f, lev);
      AddNodes(c, f, t);
      NodeHandedOut(c, t);
      MergeNodes(c, f', lev + 1, limit);
      AllNodesConcat(c, AddEvents(c, f, t), [NodeEvent(c, t)]);
      AllNodesConcat(c, AddEvents(c, f, t) + [NodeEvent(c, t)], MergeEvents(c, f', lev + 1, limit));
    }
  }

  /** One event for each data chunk, in order. */
  ghost function PieceEvents(c: Crypto, ps: seq<Piece>): (es: seq<Event>)
    requires PiecesOk(ps)
  {
    if ps == [] then [] else
      var n := |ps| - 1;
      assert PieceOk(ps[n]);
      PieceEvents(c, ps[..n]) + [PieceEvent(c, ps[n], |Content(ps[..n])|)]
  }

  ghost predicate AllHandedOut(c: Crypto, es: seq<Event>, data: bytes) {
    forall e :: e in es ==> WellFiled(c, e) && if e.DataChunk? then HoldsData(c, e, data) else HoldsKeys(c, e)
  }

  lemma HandedOutGrows(c: Crypto, es: seq<Event>, data: bytes, more: bytes)
    requires AllHandedOut(c, es, data)
    ensures AllHandedOut(c, es, data + more)
  {
    forall e | e in es && e.DataChunk? ensures HoldsData(c, e, data + more) {
      assert (data + more)[e.ofs..e.ofs + e.size] == data[e.ofs..e.ofs + e.size];
    }
  }

  lemma HandedOutConcat(c: Crypto, es: seq<Event>, fs: seq<Event>, gs: seq<Event>, data: bytes)
    requires AllHandedOut(c, es, data) && AllNodes(c, fs) && AllHandedOut(c, gs, data)
    ensures AllHandedOut(c, es + fs + gs, data)
  {
  }

  /** One more data chunk, after the key chunks it makes necessary. */
  lemma HandedOutStep(c: Crypto, es: seq<Event>, fs: seq<Event>, p: Piece, data: bytes)
    requires PieceOk(p) && AllHandedOut(c, es, data) && AllNodes(c, fs)
    ensures AllHandedOut(c, es + fs + [PieceEvent(c, p, |data|)], data + p.data)
  {
    HandedOutGrows(c, es, data, p.data);
    assert (data + p.data)[|data|..|data| + |p.data|] == p.data;
    PieceHandedOut(c, p, |data|, data + p.data);
    HandedOutConcat(c, es, fs, [PieceEvent(c, p, |data|)], data + p.data);
  }

  lemma DataLast(c: Crypto, es: seq<Event>, fs: seq<Event>, e: Event)
    requires AllNodes(c, fs) && e.DataChunk?
    ensures DataOnly(es + fs + [e]) == DataOnly(es) + [e]
  {
    NoData(c, fs);
    DataConcat(es, fs);
    DataSnoc(es + fs, e);
    Nothing2(DataOnly(es));
  }

  /** What `Log` adds last. */
  lemma LogStep(c: Crypto, ps: seq<Piece>, n: nat) returns (es: seq<Event>, fs: seq<Event>)
    requires PiecesOk(ps) && ps != [] && n == |ps| - 1
    ensures PiecesOk(ps[..n]) && es == Log(c, ps[..n]) && AllNodes(c, fs) && PieceOk(ps[n])
    ensures Log(c, ps) == es + fs + [PieceEvent(c, ps[n], |Content(ps[..n])|)]
    ensures PieceEvents(c, ps) == PieceEvents(c, ps[..n]) + [PieceEvent(c, ps[n], |Content(ps[..n])|)]
    ensures Content(ps) == Content(ps[..n]) + ps[n].data
  {
    es, fs := Log(c, ps[..n]), AddEvents(c, Grow(c, ps[..n]), Leaf(ps[n]));
    AddNodes(c, Grow(c, ps[..n]), Leaf(ps[n]));
    assert ps == ps[..n] + [ps[n]];
    SnocPiece(ps[..n], ps[n]);
  }

  lemma {:induction false} LogHandedOut(c: Crypto, ps: seq<Piece>)
    requires PiecesOk(ps)
    ensures AllHandedOut(c, Log(c, ps), Content(ps)) && DataOnly(Log(c, ps)) == PieceEvents(c, ps)
    decreases |ps|
  {
    if ps != [] {
      var n := |ps| - 1;
      var es, fs := LogStep(c, ps, n);
      LogHandedOut(c, ps[..n]);
      HandedOutStep(c, es, fs, ps[n], Content(ps[..n]));
      DataLast(c, es, fs, PieceEvent(c, ps[n], |Content(ps[..n])|));
    }
  }

  /** Every chunk of a whole run is filed under the hash of its ciphertext and encrypted with the hash
      of its cleartext; a data chunk holds the bytes of the stream it says, a key chunk the keys it
      says. The data chunks are those of the stream, each once and in order. Inline
      results need none. */
  lemma RunHandsOut(c: Crypto, ops: seq<Op>, limit: nat)
    requires ValidRun(ops, limit)
    ensures AllHandedOut(c, LogOf(c, ops, limit), Written(ops))
    ensures PiecesOk(PiecesOf(ops, limit))
    ensures InfoOf(c, ops, limit).Indirect? ==>
              DataOnly(LogOf(c, ops, limit)) == PieceEvents(c, PiecesOf(ops, limit))
    ensures !InfoOf(c, ops, limit).Indirect? ==> LogOf(c, ops, limit) == []
  {
    EndFacts(ops, limit);
    PiecesFacts(ops, limit);
    FinishHandsOut(c, EndState(ops, limit), limit, PiecesOf(ops, limit), Written(ops));
  }

  lemma FinishHandsOut(c: Crypto, s: State, limit: nat, ps: seq<Piece>, data: bytes)
    requires CanFinish(s, limit) && ps == Flush(s).pieces && PiecesOk(ps) && data == Content(ps)
    ensures AllHandedOut(c, FinishLog(c, s, limit), data)
    ensures FinishInfo(c, s, limit).Indirect? ==> DataOnly(FinishLog(c, s, limit)) == PieceEvents(c, ps)
    ensures !FinishInfo(c, s, limit).Indirect? ==> FinishLog(c, s, limit) == []
  {
    if !InlineFits(s, limit) {
      FlushedPieces(s);
      LogAndMerge(c, ps, limit, data);
    }
  }

  lemma LogAndMerge(c: Crypto, ps: seq<Piece>, limit: nat, data: bytes)
    requires PiecesOk(ps) && ps != [] && limit >= IndirectSize(1) && data == Content(ps)
    ensures Grow(c, ps) != []
    ensures var es := Log(c, ps) + MergeEvents(c, Grow(c, ps), 0, limit);
            AllHandedOut(c, es, data) && DataOnly(es) == PieceEvents(c, ps)
  {
    var fs := MergeEvents(c, Grow(c, ps), 0, limit);
    LogHandedOut(c, ps);
    MergeNodes(c, Grow(c, ps), 0, limit);
    NoData(c, fs);
    DataConcat(Log(c, ps), fs);
    Nothing2(DataOnly(Log(c, ps)));
    HandedOutConcat(c, Log(c, ps), fs, [], data);
    Nothing2(Log(c, ps) + fs);
  }

  /** The hash function does not collide on the chunks of the log. */
  ghost predicate NoCollision(c: Crypto, log: seq<Event>) {
    forall d, e :: d in log && e in log && c.sha512(d.cyph) == c.sha512(e.cyph) ==> d.cyph == e.cyph
  }
}
