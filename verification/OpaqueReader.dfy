/** The reader as it is written: methods that update the table of regions in place. */
module Reader {
  import opened Bytes
  import opened OpaqueMeta
  import opened Reading
  import opened ReaderTable
  import Adler32
  import Xdr

  // ----- decoding a chunk -----

  lemma {:induction false} SumSizesSnoc(ks: seq<OpaqueKey>, k: OpaqueKey)
    ensures SumSizes(ks + [k]) == SumSizes(ks) + k.isize
  {
    if ks == [] {
      assert [k][1..] == [];
    } else {
      assert (ks + [k])[1..] == ks[1..] + [k];
      SumSizesSnoc(ks[1..], k);
    }
  }

  lemma DecodedIsSane(s: bytes)
    ensures GetKey(s).Got? ==> Sane(GetKey(s).value)
  {
  }

  lemma {:induction false} KeysAreSane(s: bytes, n: nat, k: Xdr.Read<OpaqueKey>)
    requires n > 0 ==> k == GetKey(s)
    ensures GetKeys(s, n).Got? ==> SumSizes(GetKeys(s, n).value) >= n
    decreases n
  {
    if n > 0 && k.Got? {
      DecodedIsSane(s);
      KeysAreSane(k.rest, n - 1, GetKey(k.rest));
      if GetKeys(k.rest, n - 1).Got? {
        var ks := GetKeys(k.rest, n - 1).value;
        assert ([k.value] + ks)[1..] == ks;
      }
    }
  }

  ghost function Prepend(kl: seq<OpaqueKey>, r: Xdr.Read<seq<OpaqueKey>>): Xdr.Read<seq<OpaqueKey>> {
    if r.Bad? then Xdr.Bad else Xdr.Got(kl + r.value, r.rest)
  }

  lemma DecodeStep(kl: seq<OpaqueKey>, rest: bytes, n: nat)
    requires n > 0
    ensures Prepend(kl, GetKeys(rest, n)) ==
            if GetKey(rest).Bad? then Xdr.Bad
            else Prepend(kl + [GetKey(rest).value], GetKeys(GetKey(rest).rest, n - 1))
  {
    var g := GetKey(rest);
    if g.Got? && GetKeys(g.rest, n - 1).Got? {
      var ks := GetKeys(g.rest, n - 1).value;
      assert kl + ([g.value] + ks) == (kl + [g.value]) + ks;
    }
  }

  lemma {:induction false} SumSizesConcat(ks: seq<OpaqueKey>, ls: seq<OpaqueKey>)
    ensures SumSizes(ks + ls) == SumSizes(ks) + SumSizes(ls)
  {
    if ks == [] {
      assert ks + ls == ls;
    } else {
      assert (ks + ls)[1..] == ks[1..] + ls;
      SumSizesConcat(ks[1..], ls);
    }
  }

  lemma PrependNothing(r: Xdr.Read<seq<OpaqueKey>>)
    ensures Prepend([], r) == r
  {
    if r.Got? {
      assert [] + r.value == r.value;
    }
  }

  lemma SumOverflows(ks: seq<OpaqueKey>, rest: bytes, n: nat)
    requires SumSizes(ks) >= TWO63
    ensures Prepend(ks, GetKeys(rest, n)).Got? ==> SumSizes(Prepend(ks, GetKeys(rest, n)).value) >= TWO63
  {
    KeysAreSane(rest, n, GetKey(rest));
    if GetKeys(rest, n).Got? {
      SumSizesConcat(ks, GetKeys(rest, n).value);
    }
  }

  /** The keys listed in a key chunk, if all are good and their sizes add up to a 64-bit sum. */
  function Listed(r: Xdr.Read<seq<OpaqueKey>>): Option<seq<OpaqueKey>> {
    if r.Bad? || SumSizes(r.value) >= TWO63 then None else Some(r.value)
  }

  lemma NextKey(ks: seq<OpaqueKey>, rest: bytes, n: nat, k: Xdr.Read<OpaqueKey>, all: Xdr.Read<seq<OpaqueKey>>)
    requires n > 0 && k == GetKey(rest) && Prepend(ks, GetKeys(rest, n)) == all
    ensures k.Bad? ==> Listed(all) == None
    ensures k.Got? ==> Prepend(ks + [k.value], GetKeys(k.rest, n - 1)) == all
    ensures k.Got? ==> SumSizes(ks + [k.value]) == SumSizes(ks) + k.value.isize
  {
    DecodeStep(ks, rest, n);
    if k.Got? {
      SumSizesSnoc(ks, k.value);
    }
  }

  lemma TooBig(ks: seq<OpaqueKey>, rest: bytes, n: nat, all: Xdr.Read<seq<OpaqueKey>>)
    requires SumSizes(ks) >= TWO63 && Prepend(ks, GetKeys(rest, n)) == all
    ensures Listed(all) == None
  {
    SumOverflows(ks, rest, n);
  }

  /** The decoding loop of `gotData`: stops at the first key that is bad or overflows the sum. */
  method DecodeKeys(plain: bytes, nkeys: nat) returns (kl: Option<seq<OpaqueKey>>, totsize: int)
    ensures kl == Listed(GetKeys(plain, nkeys))
    ensures kl.Some? ==> totsize == SumSizes(kl.value)
  {
    ghost var all := GetKeys(plain, nkeys);
    var rest, ks, i := plain, [], 0;
    totsize := 0;
    PrependNothing(all);
    while i < nkeys
      invariant 0 <= i <= nkeys && totsize == SumSizes(ks) < TWO63
      invariant Prepend(ks, GetKeys(rest, nkeys - i)) == all
    {
      var k := GetKey(rest);
      NextKey(ks, rest, nkeys - i, k, all);
      if k.Bad? {
        return None, 0;
      }
      ks, rest, i := ks + [k.value], k.rest, i + 1;
      if totsize + k.value.isize >= TWO63 {
        TooBig(ks, rest, nkeys - i, all);
        return None, 0;
      }
      totsize := totsize + k.value.isize;
    }
    AllRead(ks, rest, all);
    return Some(ks), totsize;
  }

  lemma AllRead(ks: seq<OpaqueKey>, rest: bytes, all: Xdr.Read<seq<OpaqueKey>>)
    requires Prepend(ks, GetKeys(rest, 0)) == all
    ensures Listed(all) == if SumSizes(ks) >= TWO63 then None else Some(ks)
  {
    assert ks + [] == ks;
  }

  /** Everything `gotData` checks before it uses a chunk for a region. */
  method ExamineChunk(c: Crypto, k: OpaqueKey, cyph: bytes) returns (x: Chunk)
    ensures x == Examine(c, k, cyph)
  {
    if k.osize != |cyph| {
      return BadChunk;
    }
    var plain := c.ctr(k.key, cyph);
    if k.level == 0 {
      var sum := Adler32.Compute(plain, Adler32.INIT);
      return if sum != k.isum then BadChunk else Data(plain);
    }
    var nkeys := |cyph| / KEY_SIZE;
    if nkeys == 0 || |cyph| % KEY_SIZE != 0 {
      return BadChunk;
    }
    var kl, totsize := DecodeKeys(plain, nkeys);
    if kl.None? || totsize != k.isize {
      return BadChunk;
    }
    return SubKeys(kl.value);
  }

  // ----- the reader -----

  class OpaqueReader {
    const crypto: Crypto

    var regions: seq<Region>

    // Calls made to the stores and to the client
    var requested: seq<OuterHash>
    var got: seq<Part>
    var lost: seq<Region>
    var done: nat

    function View(): ReadState
      reads this
    {
      ReadState(regions, requested, got, lost, done)
    }

    constructor (c: Crypto)
      ensures crypto == c && View() == IDLE
    {
      crypto := c;
      regions, requested, got, lost, done := [], [], [], [], 0;
    }

    /** `addKeys`: inserts regions for the keys that reach into the wanted extent, and requests
        their chunks once all are in the table. */
    method AddKeys(bo: nat, ro: nat, w: Want, keys: seq<OpaqueKey>)
      modifies `regions, `requested
      ensures var new_ := AddedRegions(keys, bo, ro, w);
              regions == new_ + old(regions) && requested == old(requested) + HashesOf(new_)
    {
      ghost var rs0 := regions;
      ghost var all := AddedRegions(keys, bo, ro, w);
      ghost var new_: seq<Region> := [];
      var byteofs: nat, recofs: nat, hashes, i := bo, ro, [], 0;
      assert keys[0..] == keys && all + [] == all;
      while i < |keys| && !Past(byteofs, recofs, w)
        invariant 0 <= i <= |keys|
        invariant regions == new_ + rs0 && hashes == HashesOf(new_) && requested == old(requested)
        invariant AddedRegions(keys[i..], byteofs, recofs, w) + new_ == all
      {
        var k := keys[i];
        assert keys[i..][0] == k && keys[i..][1..] == keys[i + 1..];
        i := i + 1;
        if !Usable(k) {
          continue;
        }
        ghost var rest := AddedRegions(keys[i..], byteofs + k.isize, recofs + k.irecs, w);
        Assoc(rest, OwnRegion(k, byteofs, recofs, w), new_);
        if Reaches(byteofs, recofs, k.isize, k.irecs, w) {
          var subr := Region(byteofs, recofs, k, w);
          Assoc([subr], new_, rs0);
          HashesConcat([subr], new_);
          regions := [subr] + regions;
          hashes := hashes + [k.ohash];
          new_ := [subr] + new_;
        } else {
          assert [] + new_ == new_;
        }
        byteofs := byteofs + k.isize;
        recofs := recofs + k.irecs;
      }
      assert [] + new_ == new_;
      RequestAll(hashes);
    }

    method RequestAll(hashes: seq<OuterHash>)
      modifies `requested
      ensures requested == old(requested) + hashes
    {
      var i := 0;
      while i < |hashes|
        invariant 0 <= i <= |hashes| && requested == old(requested) + hashes[..i]
      {
        requested := requested + [hashes[i]];
        i := i + 1;
      }
    }

    /** `readBytes` and `readRecords`, when `start < end` lie within the stream. */
    method ReadRegion(info: OpaqueInfo, w: Want)
      requires !info.Null? && 0 <= w.start < w.end
      requires w.end <= if w.byrec then InternalRecords(info) else InternalSize(info)
      modifies this
      ensures View() == AfterRead(old(View()), info, w)
    {
      match info
      case Inline1(dat) =>
        got := got + [Part(0, 0, dat, 1)];
        done := done + 1;
      case InlineRecs(n, dat) =>
        got := got + [Part(0, 0, dat, if n < 0 then 0 else n)];
        done := done + 1;
      case Indirect(kl) =>
        AddKeys(0, 0, w, kl);
    }

    /** `gotData`: serves every region that waits for the chunk. */
    method GotData(ohash: OuterHash, cyph: bytes)
      modifies this
      ensures View() == Served(crypto, old(View()), ohash, cyph)
      ensures NoneListsItself(crypto, Waiting(old(regions), ohash), cyph, ohash) ==>
                View() == AfterData(crypto, old(View()), ohash, cyph)
    {
      ghost var s0 := View();
      var waiting := Waiting(regions, ohash);
      ServeAll(waiting, cyph);
      AfterRegionsIs(crypto, s0, waiting, cyph);
      regions := Others(regions, ohash);
      if |regions| == 0 {
        done := done + 1;
      }
      ServedIff(crypto, s0, ohash, cyph);
      if NoneListsItself(crypto, waiting, cyph, ohash) {
        ExpandedWaitElsewhere(crypto, waiting, cyph, ohash);
      }
    }

    /** The loop of `gotData`. The chunk is examined again only when the key changes. */
    method ServeAll(waiting: seq<Region>, cyph: bytes)
      modifies `regions, `requested, `got, `lost
      ensures View() == AfterRegions(crypto, old(View()), waiting, cyph)
    {
      ghost var all := AfterRegions(crypto, View(), waiting, cyph);
      var k: Option<OpaqueKey>, x := None, BadChunk;
      var i := 0;
      assert waiting[0..] == waiting;
      while i < |waiting|
        invariant 0 <= i <= |waiting|
        invariant k.Some? ==> x == Examine(crypto, k.value, cyph)
        invariant AfterRegions(crypto, View(), waiting[i..], cyph) == all
      {
        var r := waiting[i];
        assert waiting[i..][1..] == waiting[i + 1..];
        if k != Some(r.key) {
          x := ExamineChunk(crypto, r.key, cyph);
          k := Some(r.key);
        }
        Serve(r, x, cyph);
        i := i + 1;
      }
    }

    /** What one region makes of the chunk. */
    method Serve(r: Region, x: Chunk, ghost cyph: bytes)
      requires x == Examine(crypto, r.key, cyph)
      modifies `regions, `requested, `got, `lost
      ensures View() == AfterRegion(crypto, old(View()), r, cyph)
    {
      match x
      case BadChunk =>
        lost := lost + [r];
      case Data(plain) =>
        got := got + [Part(r.byteofs, r.recofs, plain, RecsOf(r.key))];
      case SubKeys(keys) =>
        AddKeys(r.byteofs, r.recofs, r.want, keys);
    }

    /** `noData`: nobody has the chunk. */
    method NoData(ohash: OuterHash)
      modifies `regions, `lost, `done
      ensures View() == AfterNoData(old(View()), ohash)
    {
      var rl := Waiting(regions, ohash);
      regions := Others(regions, ohash);
      var i := 0;
      while i < |rl|
        invariant 0 <= i <= |rl| && lost == old(lost) + rl[..i]
        modifies `lost
      {
        lost := lost + [rl[i]];
        i := i + 1;
      }
      assert rl[..i] == rl;
      if |regions| == 0 {
        done := done + 1;
      }
    }
  }
}
