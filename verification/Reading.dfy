/** Which data chunks a read asks for, and what a chunk that arrives turns out to be. */
module Reading {
  import opened Bytes
  import opened OpaqueMeta
  import opened KeyTree
  import Adler32

  /** The extent wanted: bytes or records `start` to `end`. */
  datatype Want = Want(start: int, end: int, byrec: bool)

  /** A data chunk delivered to the client, with its place in the stream. */
  datatype Part = Part(ofs: nat, recno: nat, data: bytes, recs: nat)

  /** All data chunks with their places, when the first one is at byte `bo` and record `ro`. */
  function Spread(ps: seq<Piece>, bo: nat, ro: nat): seq<Part> {
    if ps == [] then [] else
      [Part(bo, ro, ps[0].data, ps[0].recs)] + Spread(ps[1..], bo + |ps[0].data|, ro + ps[0].recs)
  }

  /** A part of the stream at byte `bo` and record `ro` lies behind the wanted extent. */
  predicate Past(bo: nat, ro: nat, w: Want) { if w.byrec then ro >= w.end else bo >= w.end }

  /** It reaches into the wanted extent from the left. */
  predicate Reaches(bo: nat, ro: nat, size: int, recs: int, w: Want) {
    if w.byrec then ro + recs > w.start else bo + size > w.start
  }

  predicate Overlaps(g: Part, w: Want) {
    !Past(g.ofs, g.recno, w) && Reaches(g.ofs, g.recno, |g.data|, g.recs, w)
  }

  function Wanted(gs: seq<Part>, w: Want): seq<Part> {
    if gs == [] then [] else (if Overlaps(gs[0], w) then [gs[0]] else []) + Wanted(gs[1..], w)
  }

  function Size(t: Tree): nat { |Content(Leaves(t))| }
  function Recs(t: Tree): nat { Records(Leaves(t)) }

  /** The data chunks a read reaches through a tree, descending as the reader does. */
  function Select(t: Tree, bo: nat, ro: nat, w: Want): seq<Part> {
    match t
    case Leaf(p) => [Part(bo, ro, p.data, p.recs)]
    case Node(kids) => SelectAll(kids, bo, ro, w)
  }

  /** Stops at the first subtree past the extent, skips those that do not reach it. */
  function SelectAll(ts: seq<Tree>, bo: nat, ro: nat, w: Want): seq<Part> {
    if ts == [] || Past(bo, ro, w) then [] else
      (if Reaches(bo, ro, Size(ts[0]), Recs(ts[0]), w) then Select(ts[0], bo, ro, w) else []) +
      SelectAll(ts[1..], bo + Size(ts[0]), ro + Recs(ts[0]), w)
  }

  // ----- the descent finds exactly the overlapping chunks -----

  lemma {:induction false} SpreadConcat(ps: seq<Piece>, qs: seq<Piece>, bo: nat, ro: nat)
    ensures Spread(ps + qs, bo, ro) ==
            Spread(ps, bo, ro) + Spread(qs, bo + |Content(ps)|, ro + Records(ps))
  {
    if ps == [] {
      assert ps + qs == qs;
    } else {
      assert (ps + qs)[1..] == ps[1..] + qs;
      SpreadConcat(ps[1..], qs, bo + |ps[0].data|, ro + ps[0].recs);
    }
  }

  lemma {:induction false} WantedConcat(gs: seq<Part>, hs: seq<Part>, w: Want)
    ensures Wanted(gs + hs, w) == Wanted(gs, w) + Wanted(hs, w)
  {
    if gs == [] {
      assert gs + hs == hs;
    } else {
      assert (gs + hs)[1..] == gs[1..] + hs;
      WantedConcat(gs[1..], hs, w);
    }
  }

  lemma {:induction false} PastAll(ps: seq<Piece>, bo: nat, ro: nat, w: Want)
    requires Past(bo, ro, w)
    ensures Wanted(Spread(ps, bo, ro), w) == []
  {
    if ps != [] {
      var rest := Spread(ps[1..], bo + |ps[0].data|, ro + ps[0].recs);
      assert Spread(ps, bo, ro)[1..] == rest;
      PastAll(ps[1..], bo + |ps[0].data|, ro + ps[0].recs, w);
    }
  }

  lemma {:induction false} ReachesNone(ps: seq<Piece>, bo: nat, ro: nat, w: Want)
    requires !Reaches(bo, ro, |Content(ps)|, Records(ps), w)
    ensures Wanted(Spread(ps, bo, ro), w) == []
  {
    if ps != [] {
      var rest := Spread(ps[1..], bo + |ps[0].data|, ro + ps[0].recs);
      assert Spread(ps, bo, ro)[1..] == rest;
      ReachesNone(ps[1..], bo + |ps[0].data|, ro + ps[0].recs, w);
    }
  }

  lemma {:induction false} SelectIsExact(t: Tree, bo: nat, ro: nat, w: Want)
    requires !Past(bo, ro, w) && Reaches(bo, ro, Size(t), Recs(t), w)
    ensures Select(t, bo, ro, w) == Wanted(Spread(Leaves(t), bo, ro), w)
    decreases t
  {
    match t
    case Leaf(p) =>
      OnePiece(p);
      assert Spread([p], bo, ro) == [Part(bo, ro, p.data, p.recs)];
      assert Spread([p], bo, ro)[1..] == [];
    case Node(kids) =>
      SelectAllIsExact(kids, bo, ro, w);
  }

  /** Through any number of levels, a read asks for precisely the data chunks that overlap the
      wanted extent. */
  lemma {:induction false} SelectAllIsExact(ts: seq<Tree>, bo: nat, ro: nat, w: Want)
    ensures SelectAll(ts, bo, ro, w) == Wanted(Spread(AllLeaves(ts), bo, ro), w)
    decreases ts
  {
    if ts != [] {
      if Past(bo, ro, w) {
        PastAll(AllLeaves(ts), bo, ro, w);
      } else {
        WantedSplit(ts, bo, ro, w);
        SelectAllIsExact(ts[1..], bo + Size(ts[0]), ro + Recs(ts[0]), w);
        if Reaches(bo, ro, Size(ts[0]), Recs(ts[0]), w) {
          SelectIsExact(ts[0], bo, ro, w);
        } else {
          ReachesNone(Leaves(ts[0]), bo, ro, w);
        }
      }
    }
  }

  lemma WantedSplit(ts: seq<Tree>, bo: nat, ro: nat, w: Want)
    requires ts != []
    ensures Wanted(Spread(AllLeaves(ts), bo, ro), w) ==
            Wanted(Spread(Leaves(ts[0]), bo, ro), w) +
            Wanted(Spread(AllLeaves(ts[1..]), bo + Size(ts[0]), ro + Recs(ts[0])), w)
  {
    var bo', ro' := bo + Size(ts[0]), ro + Recs(ts[0]);
    SpreadConcat(Leaves(ts[0]), AllLeaves(ts[1..]), bo, ro);
    WantedConcat(Spread(Leaves(ts[0]), bo, ro), Spread(AllLeaves(ts[1..]), bo', ro'), w);
  }

  // ----- whole reads -----

  /** A read of all bytes wants every data chunk. */
  lemma {:induction false} AllWanted(ps: seq<Piece>, bo: nat, ro: nat, w: Want)
    requires !w.byrec && w.start <= bo && bo + |Content(ps)| <= w.end
    requires forall i :: 0 <= i < |ps| ==> PieceOk(ps[i])
    ensures Wanted(Spread(ps, bo, ro), w) == Spread(ps, bo, ro)
  {
    if ps != [] {
      var rest := Spread(ps[1..], bo + |ps[0].data|, ro + ps[0].recs);
      assert Spread(ps, bo, ro)[1..] == rest;
      assert PieceOk(ps[0]);
      AllWanted(ps[1..], bo + |ps[0].data|, ro + ps[0].recs, w);
    }
  }

  /** The pieces lie end to end and their data is the stream: piece `k` begins where the bytes
      and the records before it end. */
  lemma {:induction false} SpreadTiles(ps: seq<Piece>, bo: nat, ro: nat, k: nat)
    requires k < |ps|
    ensures |Spread(ps, bo, ro)| == |ps|
    ensures Spread(ps, bo, ro)[k] ==
            Part(bo + |Content(ps[..k])|, ro + Records(ps[..k]), ps[k].data, ps[k].recs)
  {
    SpreadLength(ps, bo, ro);
    if k > 0 {
      SpreadTiles(ps[1..], bo + |ps[0].data|, ro + ps[0].recs, k - 1);
      assert ps[..k][1..] == ps[1..][..k - 1];
    }
  }

  lemma {:induction false} SpreadLength(ps: seq<Piece>, bo: nat, ro: nat)
    ensures |Spread(ps, bo, ro)| == |ps|
  {
    if ps != [] {
      SpreadLength(ps[1..], bo + |ps[0].data|, ro + ps[0].recs);
    }
  }

  // ----- a chunk that has arrived -----

  datatype Chunk = BadChunk | Data(plain: bytes) | SubKeys(keys: seq<OpaqueKey>)

  /** `gotData` for one region: every check it makes on a chunk before using it. The sum of the
      sizes is kept in a 64-bit integer. */
  function Examine(c: Crypto, k: OpaqueKey, cyph: bytes): Chunk {
    if k.osize != |cyph| then BadChunk else
      var plain := c.ctr(k.key, cyph);
      if k.level == 0 then
        if Adler32.Of(plain) != k.isum then BadChunk else Data(plain)
      else
        var nkeys := |cyph| / KEY_SIZE;
        if nkeys == 0 || |cyph| % KEY_SIZE != 0 then BadChunk else
          match GetKeys(plain, nkeys)
          case Bad => BadChunk
          case Got(kl, _) =>
            if SumSizes(kl) >= TWO63 || SumSizes(kl) != k.isize then BadChunk else SubKeys(kl)
  }

  /** A chunk is taken for data exactly if its size and the checksum of its cleartext are those of a key
      of level 0. It is taken for keys exactly if it has the size a key of another level says, one key or
      more and nothing else can be read from its cleartext, and their sizes add up, in 64 bits, to that
      of the key. */
  lemma ExamineIff(c: Crypto, k: OpaqueKey, cyph: bytes, d: bytes, ks: seq<OpaqueKey>)
    ensures Examine(c, k, cyph) == Data(d) <==>
            |cyph| == k.osize && k.level == 0 && d == c.ctr(k.key, cyph) && Adler32.Of(d) == k.isum
    ensures Examine(c, k, cyph) == SubKeys(ks) <==>
            |cyph| == k.osize && k.level != 0 && ks != [] && |cyph| == 128 * |ks| &&
            GetKeys(c.ctr(k.key, cyph), |ks|) == Xdr.Got(ks, []) && SumSizes(ks) == k.isize < TWO63
  {
    var plain, n := c.ctr(k.key, cyph), |cyph| / KEY_SIZE;
    assert |plain| == |cyph|;
    if |cyph| == 128 * |ks| {
      WholeKeys(|ks|);
    }
    if k.osize == |cyph| && |cyph| % KEY_SIZE == 0 {
      assert |cyph| == KEY_SIZE * n;
      KeysTakeAll(plain, n);
    }
  }

  lemma KeyTakes(s: bytes)
    ensures GetKey(s).Got? ==> |GetKey(s).rest| + KEY_SIZE == |s|
  {
    WordsTake(s, KEY_WORDS);
    KeyWordsSize();
  }

  lemma {:induction false} WordsTake(s: bytes, widths: seq<nat>)
    ensures Xdr.GetWords(s, widths).Got? ==> |Xdr.GetWords(s, widths).rest| + Xdr.Sum(widths) == |s|
    decreases |widths|
  {
    if widths != [] && |s| >= widths[0] {
      WordsTake(s[widths[0]..], widths[1..]);
    }
  }

  /** As many keys as fit are all there is. */
  lemma {:induction false} KeysTakeAll(s: bytes, n: nat)
    requires |s| == KEY_SIZE * n
    ensures GetKeys(s, n).Got? ==> GetKeys(s, n).rest == [] && |GetKeys(s, n).value| == n
    decreases n
  {
    if n > 0 && GetKey(s).Got? {
      KeyTakes(s);
      KeysTakeAll(GetKey(s).rest, n - 1);
    }
  }

  /** The chunk the coder made for a key passes every check and gives back what went in. */
  lemma ExamineOwnChunk(c: Crypto, t: Tree)
    requires TreeOk(t) && Representable(t)
    ensures Examine(c, KeyOf(c, t), ChunkOf(c, t).1) ==
            if t.Leaf? then Data(t.piece.data) else SubKeys(KeysOf(c, t.kids))
  {
    KeyFacts(c, t);
    EncryptInvolution(c, t);
    if t.Node? {
      ExamineKeys(c, t, KeyOf(c, t), ChunkOf(c, t).1);
    }
  }

  lemma ExamineKeys(c: Crypto, t: Tree, k: OpaqueKey, cyph: bytes)
    requires TreeOk(t) && Representable(t) && t.Node? && k == KeyOf(c, t)
    requires c.ctr(k.key, cyph) == Plain(c, t) && |cyph| == |Plain(c, t)| == k.osize
    requires k.level > 0
    ensures Examine(c, k, cyph) == SubKeys(KeysOf(c, t.kids))
  {
    PlainDecodes(c, t);
    AllKeyFacts(c, t.kids);
    WholeKeys(|t.kids|);
  }

  lemma WholeKeys(n: nat)
    ensures (KEY_SIZE * n) / KEY_SIZE == n && (KEY_SIZE * n) % KEY_SIZE == 0
  {
  }
}
