/** The whole key tree and the whole output of the coder as functions of the data chunks. */
module Build {
  import opened Bytes
  import opened OpaqueMeta
  import opened KeyTree
  import opened Levels

  /** What the coder hands to its consumer, in order. */
  datatype Event =
    | DataChunk(cyph: bytes, key: OpaqueKey, ofs: nat, size: nat)
    | KeyChunk(cyph: bytes, key: OpaqueKey, subkeys: seq<OpaqueKey>)

  function NodeEvent(c: Crypto, t: Tree): Event
    requires TreeOk(t) && t.Node?
  {
    KeyChunk(ChunkOf(c, t).1, KeyOf(c, t), KeysOf(c, t.kids))
  }

  function PieceEvent(c: Crypto, p: Piece, ofs: nat): Event
    requires PieceOk(p)
  {
    DataChunk(ChunkOf(c, Leaf(p)).1, KeyOf(c, Leaf(p)), ofs, |p.data|)
  }

  /** The key chunks one `addKey` hands out: a key chunk comes after those above it. */
  function AddEvents(c: Crypto, f: Forest, t: Tree): seq<Event>
    requires TreeOk(t) && Level(t) <= |f| && ForestOk(f, Level(t))
    decreases |f| - Level(t)
  {
    var f1, lev := Append(f, t), Level(t);
    AppendOk(f, t);
    if |f1[lev]| <= MAXKEYS then [] else
      var nk := PushUp(c, f1[lev], lev);
      AddEvents(c, f1, nk) + [NodeEvent(c, nk)]
  }

  ghost predicate PiecesOk(ps: seq<Piece>) { forall i :: 0 <= i < |ps| ==> PieceOk(ps[i]) }

  /** The levels of keys after these data chunks. */
  ghost function Grow(c: Crypto, ps: seq<Piece>): (f: Forest)
    requires PiecesOk(ps)
    ensures ForestOk(f, 0)
    ensures ps == [] <==> f == []
  {
    if ps == [] then [] else
      var n := |ps| - 1;
      assert PieceOk(ps[n]);
      AddTree(c, Grow(c, ps[..n]), Leaf(ps[n]))
  }

  /** Everything handed out for these data chunks. */
  ghost function Log(c: Crypto, ps: seq<Piece>): seq<Event>
    requires PiecesOk(ps)
  {
    if ps == [] then [] else
      var n := |ps| - 1;
      assert PieceOk(ps[n]);
      Log(c, ps[..n]) + AddEvents(c, Grow(c, ps[..n]), Leaf(ps[n])) +
      [PieceEvent(c, ps[n], |Content(ps[..n])|)]
  }

  /** The keys at every moment stand for all data handed out so far, in order. */
  lemma {:induction false} GrowOrder(c: Crypto, ps: seq<Piece>)
    requires PiecesOk(ps)
    ensures LeavesFrom(Grow(c, ps), 0) == ps
  {
    if ps != [] {
      var n := |ps| - 1;
      GrowOrder(c, ps[..n]);
      AddTreeOrder(c, Grow(c, ps[..n]), Leaf(ps[n]), 0);
      assert ps == ps[..n] + [ps[n]];
    }
  }

  // ----- height -----

  /** Every key chunk below has at least four keys. */
  ghost predicate Full(t: Tree) {
    match t
    case Leaf(_) => true
    case Node(kids) => |kids| >= MINKEYS && forall i :: 0 <= i < |kids| ==> Full(kids[i])
  }

  ghost predicate AllFull(ts: seq<Tree>) { forall i :: 0 <= i < |ts| ==> Full(ts[i]) }

  ghost predicate FullForest(f: Forest, from: nat) { forall i :: from <= i < |f| ==> AllFull(f[i]) }

  lemma {:induction false} AddTreeFull(c: Crypto, f: Forest, t: Tree)
    requires TreeOk(t) && Level(t) <= |f| && ForestOk(f, Level(t))
    requires Full(t) && FullForest(f, Level(t))
    ensures FullForest(AddTree(c, f, t), Level(t))
    decreases |f| - Level(t)
  {
    var f1, lev := Append(f, t), Level(t);
    AppendOk(f, t);
    assert forall i :: lev < i < |f1| ==> f1[i] == f[i];
    assert AllFull(f1[lev]) by { assert lev < |f| ==> AllFull(f[lev]); }
    if |f1[lev]| > MAXKEYS {
      var nk, hi := Overflow(c, f, t);
      SplitFull(nk.kids, hi);
      AddTreeFull(c, f1, nk);
      SetLevelFull(AddTree(c, f1, nk), lev, hi);
    }
  }

  lemma SetLevelFull(f: Forest, lev: nat, ts: seq<Tree>)
    requires lev < |f| && FullForest(f, lev + 1) && AllFull(ts)
    ensures FullForest(SetLevel(f, lev, ts), lev)
  {
  }

  lemma SplitFull(lo: seq<Tree>, hi: seq<Tree>)
    requires AllFull(lo + hi)
    ensures AllFull(lo) && AllFull(hi)
  {
    forall i | 0 <= i < |lo| ensures Full(lo[i]) { assert lo[i] == (lo + hi)[i]; }
    forall i | 0 <= i < |hi| ensures Full(hi[i]) { assert hi[i] == (lo + hi)[|lo| + i]; }
  }

  lemma {:induction false} GrowFull(c: Crypto, ps: seq<Piece>)
    requires PiecesOk(ps)
    ensures FullForest(Grow(c, ps), 0)
  {
    if ps != [] {
      var n := |ps| - 1;
      GrowFull(c, ps[..n]);
      AddTreeFull(c, Grow(c, ps[..n]), Leaf(ps[n]));
    }
  }

  function Pow4(n: nat): nat { if n == 0 then 1 else 4 * Pow4(n - 1) }

  lemma {:induction false} FullHeight(t: Tree)
    requires TreeOk(t) && Full(t)
    ensures |Leaves(t)| >= Pow4(Level(t))
    decreases t
  {
    if t.Node? {
      AllFullHeight(t.kids, Level(t) - 1);
      var p := Pow4(Level(t) - 1);
      assert |t.kids| * p >= 4 * p;
    }
  }

  lemma {:induction false} AllFullHeight(ts: seq<Tree>, level: nat)
    requires TreesOk(ts, level) && AllFull(ts)
    ensures |AllLeaves(ts)| >= |ts| * Pow4(level)
    decreases ts
  {
    if ts != [] {
      FullHeight(ts[0]);
      AllFullHeight(ts[1..], level);
      assert |ts| * Pow4(level) == |ts[1..]| * Pow4(level) + Pow4(level);
    }
  }

  lemma {:induction false} LeavesAbove(f: Forest, from: nat, i: nat)
    requires from <= i < |f|
    ensures |LeavesFrom(f, from)| >= |AllLeaves(f[i])|
    decreases i - from
  {
    if from < i {
      LeavesAbove(f, from + 1, i);
    }
  }

  lemma {:induction false} ContentSize(ps: seq<Piece>)
    requires PiecesOk(ps)
    ensures |Content(ps)| >= |ps|
  {
    if ps != [] {
      assert PieceOk(ps[0]);
      ContentSize(ps[1..]);
    }
  }

  lemma ForestHeight(f: Forest, i: nat)
    requires ForestOk(f, 0) && FullForest(f, 0) && i < |f|
    ensures |LeavesFrom(f, 0)| >= Pow4(i)
  {
    assert LevelOk(f, i) && AllFull(f[i]);
    AllFullHeight(f[i], i);
    LeavesAbove(f, 0, i);
    AtLeastOnce(|f[i]|, Pow4(i));
  }

  lemma AtLeastOnce(n: nat, p: nat)
    requires n > 0
    ensures n * p >= p
  {
  }

  /** The number of levels is logarithmic in the number of data chunks. */
  lemma GrowHeight(c: Crypto, ps: seq<Piece>, i: nat)
    requires PiecesOk(ps) && i < |Grow(c, ps)|
    ensures Pow4(i) <= |ps|
  {
    GrowOrder(c, ps);
    GrowFull(c, ps);
    ForestHeight(Grow(c, ps), i);
  }

  lemma Pow4Of32()
    ensures Pow4(32) == 0x1_0000_0000_0000_0000
  {
    assert Pow4(4) == 256;
    assert Pow4(8) == 65536;
    assert Pow4(12) == 65536 * 256;
    assert Pow4(16) == 65536 * 65536;
    assert Pow4(20) == 65536 * 65536 * 256;
    assert Pow4(24) == 65536 * 65536 * 65536;
    assert Pow4(28) == 65536 * 65536 * 65536 * 256;
  }

  lemma {:induction false} KeysFromBound(f: Forest, from: nat)
    requires ForestOk(f, from) && from <= |f|
    ensures KeysFrom(f, from) <= MAXKEYS * (|f| - from)
    decreases |f| - from
  {
    if from < |f| {
      assert LevelOk(f, from);
      KeysFromBound(f, from + 1);
    }
  }

  /** A stream below 2^63 bytes never makes a tree too high for the 32-bit level field. */
  lemma LevelsFit(c: Crypto, ps: seq<Piece>)
    requires PiecesOk(ps) && ps != [] && |Content(ps)| < TWO63
    ensures |Grow(c, ps)| + KeysFrom(Grow(c, ps), 0) < TWO31
  {
    var f := Grow(c, ps);
    ContentSize(ps);
    Pow4Of32();
    if |f| > 32 {
      GrowHeight(c, ps, 32);
    }
    KeysFromBound(f, 0);
  }
}
