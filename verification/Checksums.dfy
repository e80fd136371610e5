/** When the checksums composed from those of the chunks are the checksum of the stream. */
module Checksums {
  import opened Bytes
  import opened OpaqueMeta
  import opened KeyTree
  import opened Chunker
  import opened RecordRuns
  import opened Alignment
  import opened Coded
  import opened Coder
  import Adler32

  /** The coder compares the two after every chunk. */
  predicate AlwaysAgree(ps: seq<Piece>) {
    ps == [] || (AlwaysAgree(ps[..|ps| - 1]) && RunningSum(ps) == Adler32.Of(Content(ps)))
  }

  /** No composition goes below zero: a condition on the checksums composed. */
  predicate NoneWraps(ps: seq<Piece>) {
    ps == [] ||
    var n := |ps| - 1;
    NoneWraps(ps[..n]) && Adler32.NoWrap(Adler32.Of(Content(ps[..n])), Adler32.Of(ps[n].data), |ps[n].data|)
  }

  /** The comparison never fails exactly if no composition wraps. */
  lemma {:induction false} AgreeIffNoneWraps(ps: seq<Piece>)
    ensures AlwaysAgree(ps) <==> NoneWraps(ps)
    ensures AlwaysAgree(ps) ==> RunningSum(ps) == Adler32.Of(Content(ps))
  {
    if ps == [] {
      assert Content(ps) == [];
    } else {
      var n := |ps| - 1;
      AgreeIffNoneWraps(ps[..n]);
      Adler32.CatIsExact(Content(ps[..n]), ps[n].data);
      SnocPiece(ps[..n], ps[n]);
      assert ps == ps[..n] + [ps[n]];
    }
  }

  // ----- the sum of the finished stream -----

  /** `OpaqueInfo::internalSum` */
  function InternalSum(i: OpaqueInfo): u32
    requires i.Indirect? ==> NonNegSizes(i.kl)
  {
    match i
    case Null => 0
    case Inline1(dat) => Adler32.Of(dat)
    case InlineRecs(_, dat) => Adler32.Of(dat)
    case Indirect(kl) => CatSums(Adler32.INIT, kl)
  }

  /** The sum `finish` returns, and every sum on the way to it, is that of what it covers exactly
      if no composition in the tree wraps; then it is the sum of the stream. It is the sum the coder
      has composed if none of those compositions wraps either. */
  lemma FinishSum(c: Crypto, s: State, limit: nat)
    requires CanFinish(s, limit) && !InlineFits(s, limit)
    ensures NonNegSizes(KeysOf(c, TopTrees(c, s, limit))) && FinishInfo(c, s, limit).Indirect?
    ensures AllSumsExact(c, TopTrees(c, s, limit)) <==> AllNeverWrap(TopTrees(c, s, limit))
    ensures AllNeverWrap(TopTrees(c, s, limit)) ==> InternalSum(FinishInfo(c, s, limit)) == Adler32.Of(Stream(s))
    ensures AllNeverWrap(TopTrees(c, s, limit)) && NoneWraps(Flush(s).pieces) ==>
              InternalSum(FinishInfo(c, s, limit)) == RunningSum(Flush(s).pieces)
  {
    var top, ps := TopOf(c, s, limit);
    TreeSums(c, top, ps, InternalSum(Indirect(KeysOf(c, top))));
  }

  lemma TreeSums(c: Crypto, top: seq<Tree>, ps: seq<Piece>, sum: u32)
    requires forall i :: 0 <= i < |top| ==> TreeOk(top[i])
    requires AllLeaves(top) == ps && sum == CatSums(Adler32.INIT, KeysOf(c, top))
    ensures AllSumsExact(c, top) <==> AllNeverWrap(top)
    ensures AllNeverWrap(top) ==> sum == Adler32.Of(Content(ps))
    ensures AllNeverWrap(top) && NoneWraps(ps) ==> sum == RunningSum(ps)
  {
    AllKeySums(c, top);
    AgreeIffNoneWraps(ps);
  }

  lemma TopOf(c: Crypto, s: State, limit: nat) returns (top: seq<Tree>, ps: seq<Piece>)
    requires CanFinish(s, limit) && !InlineFits(s, limit)
    ensures top == TopTrees(c, s, limit) && forall i :: 0 <= i < |top| ==> TreeOk(top[i])
    ensures ps == Flush(s).pieces && AllLeaves(top) == ps && Content(ps) == Stream(s)
    ensures FinishInfo(c, s, limit) == Indirect(KeysOf(c, top))
  {
    top, ps := TopTrees(c, s, limit), Flush(s).pieces;
    TopTreesSound(c, s, limit);
    FlushFinishes(s);
  }

  /** Without a key chunk on top both are composed in the same way, and agree even where they are
      wrong. */
  lemma FinishSumFlat(c: Crypto, s: State, limit: nat)
    requires CanFinish(s, limit) && !InlineFits(s, limit)
    requires forall i :: 0 <= i < |TopTrees(c, s, limit)| ==> TopTrees(c, s, limit)[i].Leaf?
    ensures InternalSum(FinishInfo(c, s, limit)) == RunningSum(Flush(s).pieces)
  {
    var top, ps := TopOf(c, s, limit);
    FlatSums(c, top);
  }

  lemma {:induction false} FlatSums(c: Crypto, ts: seq<Tree>)
    requires forall i :: 0 <= i < |ts| ==> TreeOk(ts[i]) && ts[i].Leaf?
    ensures CatSums(Adler32.INIT, KeysOf(c, ts)) == RunningSum(AllLeaves(ts))
    decreases |ts|
  {
    if ts != [] {
      var n := |ts| - 1;
      FlatSums(c, ts[..n]);
      KeysSnoc(c, ts);
      AllLeavesSnoc(ts, n);
      assert ts[..n + 1] == ts;
      RunningSumSnoc(AllLeaves(ts[..n]), ts[n].piece);
    }
  }

  lemma RunningSumSnoc(ps: seq<Piece>, p: Piece)
    ensures RunningSum(ps + [p]) == Adler32.Cat(RunningSum(ps), Adler32.Of(p.data), |p.data|)
  {
    assert (ps + [p])[..|ps|] == ps;
  }
}
