/** A client that codes a stream, keeps the chunks in a store, and reads the stream back. */
module WholeRun {
  import opened Bytes
  import opened OpaqueMeta
  import opened KeyTree
  import opened Build
  import opened Chunker
  import opened ChunkerRuns
  import opened RecordRuns
  import opened Coded
  import opened Reading
  import opened ReaderTable
  import opened Conservation
  import opened RoundTrip
  import HandedOut
  import Coder
  import Reader

  // ----- coding -----

  /** One operation of the client. */
  method Apply(coder: Coder.OpaqueCoder, op: Op)
    requires coder.Valid() && if op.MarkRecord? then CanMark(coder.s) else |op.data| <= TWO31 - MAX_CHUNK
    modifies coder, coder.buf
    ensures coder.Valid() && (coder.buf == old(coder.buf) || fresh(coder.buf))
    ensures coder.s == if op.MarkRecord? then Mark(old(coder.s)) else Feed(old(coder.s), op.data)
  {
    match op
    case Write(data) => coder.WriteData(data);
    case MarkRecord => coder.MarkRecord();
  }

  method Code(c: Crypto, ops: seq<Op>, limit: nat) returns (info: OpaqueInfo, out: seq<Event>)
    requires ValidRun(ops, limit)
    ensures info == InfoOf(c, ops, limit) && out == LogOf(c, ops, limit)
  {
    EndFacts(ops, limit);
    var coder := new Coder.OpaqueCoder(c);
    var i := 0;
    assert ops[0..] == ops;
    while i < |ops|
      invariant 0 <= i <= |ops| && coder.Valid() && fresh(coder) && fresh(coder.buf) && coder.crypto == c
      invariant Run(coder.s, ops[i..]) == Run(START, ops)
    {
      assert ops[i..][0] == ops[i] && ops[i..][1..] == ops[i + 1..];
      Apply(coder, ops[i]);
      i := i + 1;
    }
    info := coder.Finish(limit);
    out := coder.out;
  }

  // ----- storing -----

  /** No two different chunks of the log have the same outer hash. */
  predicate HashesApart(log: seq<Event>) {
    forall d, e :: d in log && e in log && d.key.ohash == e.key.ohash ==> d.cyph == e.cyph
  }

  /** Keeps every chunk under its outer hash. */
  method Store(log: seq<Event>) returns (store: ChunkStore)
    requires HashesApart(log)
    ensures store.Items == Stored(log)
  {
    store := map[];
    var i := 0;
    while i < |log|
      invariant 0 <= i <= |log|
      invariant forall h :: h in store ==> exists e :: e in log[..i] && EntryOf(e) == (h, store[h])
      invariant forall e :: e in log[..i] ==> e.key.ohash in store && store[e.key.ohash] == e.cyph
    {
      ghost var before := store;
      assert log[..i + 1] == log[..i] + [log[i]];
      store := store[log[i].key.ohash := log[i].cyph];
      assert log[i] in log[..i + 1];
      i := i + 1;
    }
    assert log[..i] == log;
    StoreIsLog(store, log);
  }

  lemma StoreIsLog(store: ChunkStore, log: seq<Event>)
    requires forall h :: h in store ==> exists e :: e in log && EntryOf(e) == (h, store[h])
    requires forall e :: e in log ==> e.key.ohash in store && store[e.key.ohash] == e.cyph
    ensures store.Items == Stored(log)
  {
    forall p | p in store.Items ensures p in Stored(log) {
      assert p.0 in store && store[p.0] == p.1;
      var e :| e in log && EntryOf(e) == (p.0, store[p.0]);
      assert EntryOf(e) == p;
    }
    forall p | p in Stored(log) ensures p in store.Items {
      var e :| e in log && EntryOf(e) == p;
      assert p.0 in store && store[p.0] == p.1;
    }
  }

  // ----- reading -----

  /** The outer hashes listed in a key chunk. */
  function Lists(plain: bytes): set<OuterHash> {
    match GetKeys(plain, |plain| / KEY_SIZE)
    case Bad => {}
    case Got(ks, _) => set k | k in ks :: k.ohash
  }

  /** No chunk, decrypted with the key that its own cleartext hashes to, lists its own outer
      hash: that would be a fixed point of the hash function. */
  ghost predicate NoFixedPoint(c: Crypto, store: ChunkStore) {
    forall h, k :: h in store && c.sha256(c.ctr(k, store[h])) == k ==> h !in Lists(c.ctr(k, store[h]))
  }

  lemma NotListed(c: Crypto, i: Item, store: ChunkStore, h: OuterHash)
    requires NoFixedPoint(c, store) && ItemOk(c, i) && h in store && store[h] == ChunkOf(c, i.tree).1
    ensures !ListsItself(Examine(c, i.region.key, store[h]), h)
  {
    var x, k := Examine(c, i.region.key, store[h]), i.region.key.key;
    EncryptInvolution(c, i.tree);
    assert c.sha256(c.ctr(k, store[h])) == k;
    if x.SubKeys? {
      assert Lists(c.ctr(k, store[h])) == set q | q in x.keys :: q.ohash;
    }
  }

  lemma NoneListed(c: Crypto, items: seq<Item>, store: ChunkStore, h: OuterHash)
    requires NoFixedPoint(c, store) && InStore(c, items, store) && h in store
    requires forall i :: i in items ==> i.region.key.ohash == h
    ensures NoneListsItself(c, RegionsOf(items), store[h], h)
  {
    forall r | r in RegionsOf(items) ensures !ListsItself(Examine(c, r.key, store[h]), h) {
      var k :| 0 <= k < |items| && RegionsOf(items)[k] == r;
      assert ChunkOf(c, items[k].tree) in Chunks(c, items[k].tree);
      NotListed(c, items[k], store, h);
    }
  }

  lemma FoundDropsNone(c: Crypto, s: ReadState, items: seq<Item>, missed: seq<Item>, h: OuterHash, store: ChunkStore)
    requires Tracks(c, s, items, missed) && InStore(c, items, store) && NoFixedPoint(c, store) && h in store
    ensures forall r :: r in Expanded(c, Waiting(s.regions, h), store[h]) ==> r.key.ohash != h
  {
    ItemsSplit(items, h);
    WaitingItems(items, h);
    NoneListed(c, ItemsWaiting(items, h), store, h);
    ExpandedWaitElsewhere(c, Waiting(s.regions, h), store[h], h);
  }

  /** Without a fixed point of the hash function the answers from a store drop nothing, in any
      order, repeated or unasked for. */
  lemma {:induction false} StoreDropsNone(c: Crypto, s: ReadState, items: seq<Item>, missed: seq<Item>,
                                          answers: seq<Answer>, store: ChunkStore)
    requires Tracks(c, s, items, missed) && InStore(c, items, store) && FromStore(answers, store)
    requires NoFixedPoint(c, store)
    ensures NoneDropped(c, s, answers)
    decreases |answers|
  {
    if answers != [] {
      var a := answers[0];
      assert a in answers;
      if a.Found? {
        FoundDropsNone(c, s, items, missed, a.h, store);
        ServedIff(c, s, a.h, a.cyph);
      }
      var items', missed' := AnswerStep(c, s, items, missed, a, store);
      StoreDropsNone(c, ServedAnswer(c, s, a), items', missed', answers[1..], store);
    }
  }

  /** Answers one pending request, whichever it is. */
  method AnswerOne(r: Reader.OpaqueReader, store: ChunkStore, ghost items: seq<Item>)
    returns (ghost items': seq<Item>)
    requires r.regions != [] && Tracks(r.crypto, r.View(), items, []) && InStore(r.crypto, items, store)
    requires NoFixedPoint(r.crypto, store)
    modifies r
    ensures Tracks(r.crypto, r.View(), items', []) && InStore(r.crypto, items', store)
    ensures Accounted(r.View(), items', []) == Accounted(old(r.View()), items, [])
    ensures Work(items') < Work(items)
  {
    var n :| 0 <= n < |r.regions|;
    var h := r.regions[n].key.ohash;
    ghost var s0, ws := r.View(), ItemsWaiting(items, h);
    assert ChunkOf(r.crypto, items[n].tree) in Chunks(r.crypto, items[n].tree) && items[n] in items;
    ItemsSplit(items, h);
    WaitingItems(items, h);
    StoreIsAuthentic(r.crypto, ws, store, h);
    NoneListed(r.crypto, ws, store, h);
    SomeWaiting(items, h, n);
    DataProgress(r.crypto, items, h, store[h]);
    ExpandedInStore(r.crypto, ws, store[h], store);
    ghost var missed: seq<Item>;
    items', missed := DataStep(r.crypto, s0, items, [], h, store[h]);
    r.GotData(h, store[h]);
  }

  lemma {:induction false} SomeWaiting(items: seq<Item>, h: OuterHash, n: nat)
    requires n < |items| && items[n].region.key.ohash == h
    ensures ItemsWaiting(items, h) != []
  {
    if n > 0 {
      SomeWaiting(items[1..], h, n - 1);
    }
  }

  /** Reads the whole stream: the answers come in any order. */
  method ReadAll(c: Crypto, info: OpaqueInfo, store: ChunkStore, ghost ops: seq<Op>, ghost limit: nat)
    returns (got: seq<Part>)
    requires ValidRun(ops, limit) && info == InfoOf(c, ops, limit)
    requires Stored(LogOf(c, ops, limit)) <= store.Items && NoFixedPoint(c, store)
    ensures Rebuilds(got, Written(ops))
  {
    var w := Want(0, InternalSize(info), false);
    FullExtent(c, ops, limit);
    var r := new Reader.OpaqueReader(c);
    r.ReadRegion(info, w);
    if !info.Indirect? {
      InlineRead(c, ops, limit, w);
      return r.got;
    }
    ghost var items := ReadStarts(c, ops, limit, w, store);
    ghost var all := Needs(items);
    while |r.regions| > 0
      invariant fresh(r) && r.crypto == c && Tracks(c, r.View(), items, []) && InStore(c, items, store)
      invariant Accounted(r.View(), items, []) == multiset(all)
      decreases Work(items)
    {
      items := AnswerOne(r, store, items);
    }
    assert items == [];
    got := r.got;
    WantedAll(c, ops, limit, w, all, got);
  }

  lemma FullExtent(c: Crypto, ops: seq<Op>, limit: nat)
    requires ValidRun(ops, limit)
    ensures InternalSize(InfoOf(c, ops, limit)) == |Written(ops)|
  {
    EndFacts(ops, limit);
    FinishTotals(c, EndState(ops, limit), limit);
  }

  lemma WantedAll(c: Crypto, ops: seq<Op>, limit: nat, w: Want, all: seq<Part>, got: seq<Part>)
    requires ValidRun(ops, limit) && w == Want(0, |Written(ops)|, false)
    requires all == Wanted(Spread(PiecesOf(ops, limit), 0, 0), w)
    requires multiset(got) == multiset(all)
    ensures Rebuilds(got, Written(ops))
  {
    PiecesFacts(ops, limit);
    AllWanted(PiecesOf(ops, limit), 0, 0, w);
    SpreadRebuilds(PiecesOf(ops, limit));
    RebuildsInAnyOrder(all, got, Written(ops));
  }

  /** Puts the pieces where they belong. */
  method Assemble(got: seq<Part>, size: nat, ghost data: bytes) returns (buf: array<byte>)
    requires Rebuilds(got, data) && size == |data|
    ensures buf[..] == data
  {
    buf := new byte[size];
    var k := 0;
    while k < |got|
      invariant 0 <= k <= |got|
      invariant forall i, j :: 0 <= i < size && 0 <= j < k && Covers(got[j], i) ==> buf[i] == data[i]
    {
      Place(buf, got[k], data);
      k := k + 1;
    }
    forall i | 0 <= i < size ensures buf[i] == data[i] {
      assert Covered(got, i);
    }
  }

  /** Copies one piece into the buffer. */
  method Place(buf: array<byte>, g: Part, ghost data: bytes)
    requires FitsAt(g, data) && buf.Length == |data|
    modifies buf
    ensures forall i :: 0 <= i < buf.Length ==> buf[i] == if Covers(g, i) then data[i] else old(buf[i])
  {
    var n := 0;
    while n < |g.data|
      invariant 0 <= n <= |g.data|
      invariant forall i :: 0 <= i < buf.Length ==>
                  buf[i] == if g.ofs <= i < g.ofs + n then data[i] else old(buf[i])
    {
      assert g.data[n] == data[g.ofs..g.ofs + |g.data|][n];
      buf[g.ofs + n] := g.data[n];
      n := n + 1;
    }
  }

  lemma HashesTellApart(c: Crypto, log: seq<Event>, data: bytes)
    requires HandedOut.AllHandedOut(c, log, data) && HandedOut.NoCollision(c, log)
    ensures HashesApart(log)
  {
    forall d, e | d in log && e in log && d.key.ohash == e.key.ohash ensures d.cyph == e.cyph {
      assert HandedOut.WellFiled(c, d) && HandedOut.WellFiled(c, e);
    }
  }

  /** Whatever was written, in whatever portions and with whatever marks: coding it, storing the
      chunks, passing the metadata on in its external form and reading everything back in any
      order gives the same bytes. The hash function must not collide on the chunks of this
      stream. */
  method CodeAndRead(c: Crypto, ops: seq<Op>, limit: nat) returns (meta: bytes, data: array<byte>)
    requires ValidRun(ops, limit) && HandedOut.NoCollision(c, LogOf(c, ops, limit))
    requires forall store: ChunkStore :: store.Items == Stored(LogOf(c, ops, limit)) ==> NoFixedPoint(c, store)
    ensures data[..] == Written(ops) && |meta| <= limit
  {
    var info, out := Code(c, ops, limit);
    MetaFits(c, ops, limit);
    meta := PutInfo(info);
    HandedOut.RunHandsOut(c, ops, limit);
    HashesTellApart(c, out, Written(ops));
    var store := Store(out);
    var info' := GetInfo(meta);
    var got := ReadAll(c, info', store, ops, limit);
    FullExtent(c, ops, limit);
    data := Assemble(got, InternalSize(info'), Written(ops));
  }

  lemma MetaFits(c: Crypto, ops: seq<Op>, limit: nat)
    requires ValidRun(ops, limit)
    ensures var i := InfoOf(c, ops, limit);
            Storable(i) && |PutInfo(i)| <= limit && GetInfo(PutInfo(i)) == i
  {
    EndFacts(ops, limit);
    FinishFitsLimit(c, EndState(ops, limit), limit);
  }
}
