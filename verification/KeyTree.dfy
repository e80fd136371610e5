/** The tree of key chunks the coder builds over its data chunks.

    A `Tree` is what a key stands for: a data chunk, or a key chunk over subtrees. `KeyOf` is
    the key the coder gives it. The coder itself keeps only keys; the trees say what they mean. */
module KeyTree {
  import opened Bytes
  import opened OpaqueMeta
  import Adler32

  const MINKEYS: nat := 4
  const MAXKEYS: nat := 8
  const MAX_CHUNK: nat := 1024 * 1024

  /** A data chunk: its bytes and the number of records that start in it. */
  datatype Piece = Piece(data: bytes, recs: nat)

  datatype Tree = Leaf(piece: Piece) | Node(kids: seq<Tree>)

  function Level(t: Tree): nat {
    match t
    case Leaf(_) => 0
    case Node(kids) => if kids == [] then 1 else 1 + Level(kids[0])
  }

  predicate PieceOk(p: Piece) {
    0 < |p.data| <= MAX_CHUNK && p.recs <= |p.data|
  }

  predicate TreeOk(t: Tree) {
    match t
    case Leaf(p) => PieceOk(p)
    case Node(kids) =>
      0 < |kids| <= MAXKEYS &&
      forall i :: 0 <= i < |kids| ==> TreeOk(kids[i]) && Level(kids[i]) == Level(kids[0])
  }

  /** Sound trees, all of one level. */
  predicate TreesOk(ts: seq<Tree>, level: nat) {
    forall i :: 0 <= i < |ts| ==> TreeOk(ts[i]) && Level(ts[i]) == level
  }

  // ----- content -----

  function Leaves(t: Tree): seq<Piece> {
    match t
    case Leaf(p) => [p]
    case Node(kids) => AllLeaves(kids)
  }

  function AllLeaves(ts: seq<Tree>): seq<Piece> {
    if ts == [] then [] else Leaves(ts[0]) + AllLeaves(ts[1..])
  }

  function Content(ps: seq<Piece>): bytes {
    if ps == [] then [] else ps[0].data + Content(ps[1..])
  }

  function Records(ps: seq<Piece>): nat {
    if ps == [] then 0 else ps[0].recs + Records(ps[1..])
  }

  lemma {:induction false} AllLeavesConcat(ts: seq<Tree>, us: seq<Tree>)
    ensures AllLeaves(ts + us) == AllLeaves(ts) + AllLeaves(us)
  {
    if ts == [] {
      assert ts + us == us;
    } else {
      assert (ts + us)[1..] == ts[1..] + us;
      AllLeavesConcat(ts[1..], us);
    }
  }

  lemma {:induction false} ContentConcat(ps: seq<Piece>, qs: seq<Piece>)
    ensures Content(ps + qs) == Content(ps) + Content(qs)
    ensures Records(ps + qs) == Records(ps) + Records(qs)
  {
    if ps == [] {
      assert ps + qs == qs;
    } else {
      assert (ps + qs)[1..] == ps[1..] + qs;
      ContentConcat(ps[1..], qs);
    }
  }

  lemma OnePiece(p: Piece)
    ensures Content([p]) == p.data && Records([p]) == p.recs
  {
    assert [p][1..] == [];
    assert Content([p]) == p.data + [];
  }

  // ----- keys -----

  function Encrypt(c: Crypto, plain: bytes): bytes { c.ctr(c.sha256(plain), plain) }

  function DataKey(c: Crypto, data: bytes, recs: int): OpaqueKey {
    OpaqueKey(0, |data|, |data|, recs, Adler32.Of(data), c.sha256(data), c.sha512(Encrypt(c, data)))
  }

  /** Composition of the sums of the keys, left to right. */
  function CatSums(sum: u32, ks: seq<OpaqueKey>): u32
    requires forall i :: 0 <= i < |ks| ==> ks[i].isize >= 0
    decreases |ks|
  {
    if ks == [] then sum else CatSums(Adler32.Cat(sum, ks[0].isum, ks[0].isize), ks[1..])
  }

  predicate NonNegSizes(ks: seq<OpaqueKey>) {
    forall i :: 0 <= i < |ks| ==> ks[i].isize >= 0
  }

  function ChunkKey(c: Crypto, ks: seq<OpaqueKey>): OpaqueKey
    requires ks != [] && NonNegSizes(ks)
  {
    var plain := PutKeys(ks);
    OpaqueKey(ks[0].level + 1, |plain|, SumSizes(ks), SumRecs(ks), CatSums(Adler32.INIT, ks),
              c.sha256(plain), c.sha512(Encrypt(c, plain)))
  }

  function KeyOf(c: Crypto, t: Tree): (k: OpaqueKey)
    requires TreeOk(t)
    ensures k.isize >= 0
  {
    match t
    case Leaf(p) => DataKey(c, p.data, p.recs)
    case Node(kids) =>
      SumSizesNonNeg(KeysOf(c, kids));
      ChunkKey(c, KeysOf(c, kids))
  }

  function KeysOf(c: Crypto, ts: seq<Tree>): (ks: seq<OpaqueKey>)
    requires forall i :: 0 <= i < |ts| ==> TreeOk(ts[i])
    ensures |ks| == |ts| && NonNegSizes(ks)
    ensures forall i :: 0 <= i < |ts| ==> ks[i] == KeyOf(c, ts[i])
  {
    if ts == [] then [] else [KeyOf(c, ts[0])] + KeysOf(c, ts[1..])
  }

  lemma {:induction false} SumSizesNonNeg(ks: seq<OpaqueKey>)
    requires NonNegSizes(ks)
    ensures SumSizes(ks) >= 0
  {
    if ks != [] {
      SumSizesNonNeg(ks[1..]);
    }
  }

  /** The cleartext of the chunk a key points at. */
  function Plain(c: Crypto, t: Tree): bytes
    requires TreeOk(t)
  {
    match t
    case Leaf(p) => p.data
    case Node(kids) => PutKeys(KeysOf(c, kids))
  }

  /** The chunk as stored, under its outer hash. */
  function ChunkOf(c: Crypto, t: Tree): (OuterHash, bytes)
    requires TreeOk(t)
  {
    (KeyOf(c, t).ohash, Encrypt(c, Plain(c, t)))
  }

  /** All chunks needed to read the tree back. */
  function Chunks(c: Crypto, t: Tree): set<(OuterHash, bytes)>
    requires TreeOk(t)
  {
    match t
    case Leaf(_) => {ChunkOf(c, t)}
    case Node(kids) => {ChunkOf(c, t)} + AllChunks(c, kids)
  }

  function AllChunks(c: Crypto, ts: seq<Tree>): set<(OuterHash, bytes)>
    requires forall i :: 0 <= i < |ts| ==> TreeOk(ts[i])
  {
    if ts == [] then {} else Chunks(c, ts[0]) + AllChunks(c, ts[1..])
  }

  // ----- what a key says about its tree -----

  /** Level, size and record count of a key are those of what it stands for, and the key
      passes the sanity checks. */
  lemma {:induction false} KeyFacts(c: Crypto, t: Tree)
    requires TreeOk(t)
    ensures var k := KeyOf(c, t);
            k.level == Level(t) && k.isize == |Content(Leaves(t))| &&
            k.irecs == Records(Leaves(t)) && k.osize == |Plain(c, t)| &&
            k.ohash == ChunkOf(c, t).0 && Sane(k)
    decreases t
  {
    match t
    case Leaf(p) =>
      OnePiece(p);
    case Node(kids) =>
      KeyFacts(c, kids[0]);
      AllKeyFacts(c, kids);
  }

  lemma {:induction false} AllKeyFacts(c: Crypto, ts: seq<Tree>)
    requires forall i :: 0 <= i < |ts| ==> TreeOk(ts[i])
    ensures SumSizes(KeysOf(c, ts)) == |Content(AllLeaves(ts))|
    ensures SumRecs(KeysOf(c, ts)) == Records(AllLeaves(ts)) <= |Content(AllLeaves(ts))|
    ensures ts != [] ==> |Content(AllLeaves(ts))| > 0
    ensures AllSane(KeysOf(c, ts))
    decreases ts
  {
    if ts != [] {
      KeyFacts(c, ts[0]);
      AllKeyFacts(c, ts[1..]);
      ContentConcat(Leaves(ts[0]), AllLeaves(ts[1..]));
      var ks, rest := KeysOf(c, ts), KeysOf(c, ts[1..]);
      assert ks[1..] == rest;
      forall i | 0 <= i < |ks| ensures Sane(ks[i]) {
        if i > 0 { assert ks[i] == rest[i - 1]; }
      }
    }
  }

  /** A stream below 2^63 bytes and fewer than 2^31 levels: every stored field fits. */
  predicate Representable(t: Tree) {
    |Content(Leaves(t))| < TWO63 && Level(t) < TWO31
  }

  lemma KeyFits(c: Crypto, t: Tree)
    requires TreeOk(t) && Representable(t)
    ensures Fits(KeyOf(c, t))
  {
    KeyFacts(c, t);
    if t.Node? {
      assert |Plain(c, t)| == KEY_SIZE * |t.kids|;
    }
  }

  lemma {:induction false} KidsContent(ts: seq<Tree>, i: nat)
    requires i < |ts|
    ensures |Content(Leaves(ts[i]))| <= |Content(AllLeaves(ts))|
  {
    ContentConcat(Leaves(ts[0]), AllLeaves(ts[1..]));
    if i > 0 {
      KidsContent(ts[1..], i - 1);
    }
  }

  lemma KidsFit(c: Crypto, t: Tree)
    requires TreeOk(t) && Representable(t) && t.Node?
    ensures AllFit(KeysOf(c, t.kids)) && AllSane(KeysOf(c, t.kids))
    ensures forall i :: 0 <= i < |t.kids| ==> Representable(t.kids[i])
  {
    AllKeyFacts(c, t.kids);
    forall i | 0 <= i < |t.kids|
      ensures Representable(t.kids[i]) && Fits(KeysOf(c, t.kids)[i])
    {
      KidsContent(t.kids, i);
      KeyFits(c, t.kids[i]);
    }
  }

  /** A key chunk decodes to the keys of the subtrees, and nothing is left over. */
  lemma PlainDecodes(c: Crypto, t: Tree)
    requires TreeOk(t) && Representable(t) && t.Node?
    ensures GetKeys(Plain(c, t), |t.kids|) == Xdr.Got(KeysOf(c, t.kids), [])
    ensures |Plain(c, t)| == KEY_SIZE * |t.kids|
  {
    KidsFit(c, t);
    KeysRoundTrip(KeysOf(c, t.kids), []);
    assert Plain(c, t) + [] == Plain(c, t);
  }

  lemma EncryptInvolution(c: Crypto, t: Tree)
    requires TreeOk(t)
    ensures c.ctr(KeyOf(c, t).key, ChunkOf(c, t).1) == Plain(c, t)
    ensures |ChunkOf(c, t).1| == |Plain(c, t)|
  {
    var k, d := c.sha256(Plain(c, t)), Plain(c, t);
    assert KeyOf(c, t).key == k;
    assert |c.ctr(k, d)| == |d| && c.ctr(k, c.ctr(k, d)) == d;
  }

  // ----- composed checksums -----

  /** Every sum composed in the tree, of the first subtrees of a node as of all of them, is the
      Adler-32 of what it covers. */
  ghost predicate SumsExact(c: Crypto, t: Tree)
    requires TreeOk(t)
  {
    match t
    case Leaf(_) => true
    case Node(kids) => AllSumsExact(c, kids)
  }

  ghost predicate AllSumsExact(c: Crypto, ts: seq<Tree>)
    requires forall i :: 0 <= i < |ts| ==> TreeOk(ts[i])
  {
    (forall i :: 0 <= i < |ts| ==> SumsExact(c, ts[i])) && PrefixesExact(c, ts)
  }

  ghost predicate PrefixesExact(c: Crypto, ts: seq<Tree>)
    requires forall i :: 0 <= i < |ts| ==> TreeOk(ts[i])
  {
    ts == [] ||
    (PrefixesExact(c, ts[..|ts| - 1]) &&
     CatSums(Adler32.INIT, KeysOf(c, ts)) == Adler32.Of(Content(AllLeaves(ts))))
  }

  /** No composition in the tree goes below zero: a condition on the checksums of its content. */
  predicate NeverWraps(t: Tree) {
    match t
    case Leaf(_) => true
    case Node(kids) => AllNeverWrap(kids)
  }

  predicate AllNeverWrap(ts: seq<Tree>) {
    (forall i :: 0 <= i < |ts| ==> NeverWraps(ts[i])) && PrefixesNoWrap(ts)
  }

  predicate PrefixesNoWrap(ts: seq<Tree>) {
    ts == [] ||
    var n := |ts| - 1;
    PrefixesNoWrap(ts[..n]) && KidNoWrap(AllLeaves(ts[..n]), Leaves(ts[n]))
  }

  predicate KidNoWrap(ps: seq<Piece>, qs: seq<Piece>) {
    Adler32.NoWrap(Adler32.Of(Content(ps)), Adler32.Of(Content(qs)), |Content(qs)|)
  }

  /** The sum stored in a key, and every sum on the way to it, is the Adler-32 of what it covers
      exactly if no composition wraps. */
  lemma {:induction false} KeySum(c: Crypto, t: Tree)
    requires TreeOk(t)
    ensures SumsExact(c, t) <==> NeverWraps(t)
    ensures SumsExact(c, t) ==> KeyOf(c, t).isum == Adler32.Of(Content(Leaves(t)))
    decreases t, 1
  {
    match t
    case Leaf(p) =>
      OnePiece(p);
    case Node(kids) =>
      AllKeySums(c, kids);
  }

  lemma {:induction false} AllKeySums(c: Crypto, ts: seq<Tree>)
    requires forall i :: 0 <= i < |ts| ==> TreeOk(ts[i])
    ensures AllSumsExact(c, ts) <==> AllNeverWrap(ts)
    ensures AllSumsExact(c, ts) ==> CatSums(Adler32.INIT, KeysOf(c, ts)) == Adler32.Of(Content(AllLeaves(ts)))
    decreases ts, 0
  {
    forall i | 0 <= i < |ts|
      ensures SumsExact(c, ts[i]) <==> NeverWraps(ts[i])
      ensures SumsExact(c, ts[i]) ==> KeyOf(c, ts[i]).isum == Adler32.Of(Content(Leaves(ts[i])))
    {
      KeySum(c, ts[i]);
    }
    if forall i :: 0 <= i < |ts| ==> SumsExact(c, ts[i]) {
      PrefixSums(c, ts);
    }
  }

  /** Over subtrees whose own sums are exact. */
  lemma {:induction false} PrefixSums(c: Crypto, ts: seq<Tree>)
    requires forall i :: 0 <= i < |ts| ==> TreeOk(ts[i])
    requires forall i :: 0 <= i < |ts| ==> KeyOf(c, ts[i]).isum == Adler32.Of(Content(Leaves(ts[i])))
    ensures PrefixesExact(c, ts) <==> PrefixesNoWrap(ts)
    ensures PrefixesExact(c, ts) ==> CatSums(Adler32.INIT, KeysOf(c, ts)) == Adler32.Of(Content(AllLeaves(ts)))
    decreases |ts|
  {
    if ts == [] {
      assert Content(AllLeaves(ts)) == [];
    } else {
      var n := |ts| - 1;
      PrefixSums(c, ts[..n]);
      KeyFacts(c, ts[n]);
      KeysSnoc(c, ts);
      ContentSnoc(ts);
      Adler32.CatIsExact(Content(AllLeaves(ts[..n])), Content(Leaves(ts[n])));
    }
  }

  lemma ContentSnoc(ts: seq<Tree>)
    requires ts != []
    ensures var n := |ts| - 1;
            Content(AllLeaves(ts)) == Content(AllLeaves(ts[..n])) + Content(Leaves(ts[n]))
  {
    var n := |ts| - 1;
    assert ts[..n + 1] == ts;
    AllLeavesSnoc(ts, n);
    ContentConcat(AllLeaves(ts[..n]), Leaves(ts[n]));
  }

  lemma Snoc<T>(a: seq<T>, b: seq<T>, x: T)
    requires |a| == |b| + 1 && a[|b|] == x && forall i :: 0 <= i < |b| ==> a[i] == b[i]
    ensures a == b + [x]
  {
  }

  lemma KeysSnoc(c: Crypto, ts: seq<Tree>)
    requires ts != [] && forall i :: 0 <= i < |ts| ==> TreeOk(ts[i])
    ensures var n := |ts| - 1;
            CatSums(Adler32.INIT, KeysOf(c, ts)) ==
            Adler32.Cat(CatSums(Adler32.INIT, KeysOf(c, ts[..n])), KeyOf(c, ts[n]).isum, KeyOf(c, ts[n]).isize)
  {
    var n := |ts| - 1;
    Snoc(KeysOf(c, ts), KeysOf(c, ts[..n]), KeyOf(c, ts[n]));
    CatSumsSnoc(Adler32.INIT, KeysOf(c, ts[..n]), KeyOf(c, ts[n]));
  }

  lemma {:induction false} CatSumsSnoc(sum: u32, ks: seq<OpaqueKey>, k: OpaqueKey)
    requires NonNegSizes(ks) && k.isize >= 0
    ensures CatSums(sum, ks + [k]) == Adler32.Cat(CatSums(sum, ks), k.isum, k.isize)
    decreases |ks|
  {
    if ks == [] {
      assert ks + [k] == [k] && [k][1..] == [];
    } else {
      assert (ks + [k])[1..] == ks[1..] + [k];
      CatSumsSnoc(Adler32.Cat(sum, ks[0].isum, ks[0].isize), ks[1..], k);
    }
  }

  lemma AllLeavesSnoc(ts: seq<Tree>, i: nat)
    requires i < |ts|
    ensures AllLeaves(ts[..i + 1]) == AllLeaves(ts[..i]) + Leaves(ts[i])
  {
    assert ts[..i + 1] == ts[..i] + [ts[i]];
    AllLeavesConcat(ts[..i], [ts[i]]);
    assert AllLeaves([ts[i]]) == Leaves(ts[i]) + AllLeaves([]);
  }
}
