/** The asynchronous reader as a state and what each event does to it: a table of regions waiting
    for chunks, which a key chunk replaces by smaller regions and a data chunk turns into data. */
module ReaderTable {
  import opened Bytes
  import opened OpaqueMeta
  import opened Reading

  /** A part of the stream for which a chunk is needed. */
  datatype Region = Region(byteofs: nat, recofs: nat, key: OpaqueKey, want: Want)

  /** The table, newest region first, and the calls made so far: chunks requested from the stores,
      data delivered, regions reported missing, and the number of times the end was announced. */
  datatype ReadState = ReadState(
    regions: seq<Region>,
    requested: seq<OuterHash>,
    got: seq<Part>,
    lost: seq<Region>,
    done: nat)

  const IDLE := ReadState([], [], [], [], 0)

  // ----- the table -----

  /** Regions waiting for `h`: newest first. */
  function Waiting(rs: seq<Region>, h: OuterHash): seq<Region> {
    if rs == [] then [] else
      (if rs[0].key.ohash == h then [rs[0]] else []) + Waiting(rs[1..], h)
  }

  function Others(rs: seq<Region>, h: OuterHash): seq<Region> {
    if rs == [] then [] else
      (if rs[0].key.ohash == h then [] else [rs[0]]) + Others(rs[1..], h)
  }

  /** Outer hashes of a part of the table, oldest first. */
  function HashesOf(rs: seq<Region>): seq<OuterHash> {
    if rs == [] then [] else HashesOf(rs[1..]) + [rs[0].key.ohash]
  }

  lemma {:induction false} HashesConcat(rs: seq<Region>, qs: seq<Region>)
    ensures HashesOf(rs + qs) == HashesOf(qs) + HashesOf(rs)
  {
    if rs == [] {
      assert rs + qs == qs;
    } else {
      assert (rs + qs)[1..] == rs[1..] + qs;
      HashesConcat(rs[1..], qs);
    }
  }

  /** One request for each region, oldest region first. */
  lemma {:induction false} HashesAre(rs: seq<Region>, k: nat)
    requires k < |rs|
    ensures |HashesOf(rs)| == |rs| && HashesOf(rs)[|rs| - 1 - k] == rs[k].key.ohash
  {
    if |rs| > 1 {
      HashesAre(rs[1..], if k == 0 then 0 else k - 1);
    } else {
      assert HashesOf(rs[1..]) == [];
    }
  }

  lemma {:induction false} HashesAreAll(rs: seq<Region>)
    ensures forall r :: r in rs ==> r.key.ohash in HashesOf(rs)
  {
    if rs != [] {
      HashesAreAll(rs[1..]);
    }
  }

  lemma {:induction false} WaitingWait(rs: seq<Region>, h: OuterHash)
    ensures forall r :: r in Waiting(rs, h) <==> r in rs && r.key.ohash == h
    ensures forall r :: r in Others(rs, h) <==> r in rs && r.key.ohash != h
  {
    if rs != [] {
      WaitingWait(rs[1..], h);
    }
  }

  /** Removing a hash leaves alone regions that wait for other hashes. */
  lemma {:induction false} OthersKeep(rs: seq<Region>, qs: seq<Region>, h: OuterHash)
    requires forall r :: r in rs ==> r.key.ohash != h
    ensures Others(rs + qs, h) == rs + Others(qs, h)
  {
    if rs == [] {
      assert rs + qs == qs && rs + Others(qs, h) == Others(qs, h);
    } else {
      assert (rs + qs)[1..] == rs[1..] + qs;
      OthersKeep(rs[1..], qs, h);
      assert [rs[0]] + (rs[1..] + Others(qs, h)) == rs + Others(qs, h);
    }
  }

  lemma {:induction false} OthersSize(rs: seq<Region>, qs: seq<Region>, h: OuterHash)
    ensures |Others(rs + qs, h)| <= |rs| + |Others(qs, h)|
    ensures |Others(rs + qs, h)| == |rs| + |Others(qs, h)| ==> forall r :: r in rs ==> r.key.ohash != h
  {
    if rs == [] {
      assert rs + qs == qs;
    } else {
      assert (rs + qs)[1..] == rs[1..] + qs;
      OthersSize(rs[1..], qs, h);
    }
  }

  // ----- adding keys -----

  /** The check `addKeys` makes before it uses a key. */
  predicate Usable(k: OpaqueKey) { 0 <= k.level && 0 < k.osize && 0 < k.isize && 0 <= k.irecs }

  /** The region for a key whose content begins at byte `bo` and record `ro`, if it is wanted. */
  function OwnRegion(k: OpaqueKey, bo: nat, ro: nat, w: Want): seq<Region> {
    if Reaches(bo, ro, k.isize, k.irecs, w) then [Region(bo, ro, k, w)] else []
  }

  /** The regions `addKeys` inserts, newest first. An unusable key is skipped without a trace. */
  function AddedRegions(ks: seq<OpaqueKey>, bo: nat, ro: nat, w: Want): seq<Region> {
    if ks == [] || Past(bo, ro, w) then []
    else if !Usable(ks[0]) then AddedRegions(ks[1..], bo, ro, w)
    else AddedRegions(ks[1..], bo + ks[0].isize, ro + ks[0].irecs, w) + OwnRegion(ks[0], bo, ro, w)
  }

  lemma {:induction false} AddedKeys(ks: seq<OpaqueKey>, bo: nat, ro: nat, w: Want, r: Region)
    requires r in AddedRegions(ks, bo, ro, w)
    ensures r.key in ks && r.want == w
  {
    if !Usable(ks[0]) {
      AddedKeys(ks[1..], bo, ro, w, r);
    } else if r in AddedRegions(ks[1..], bo + ks[0].isize, ro + ks[0].irecs, w) {
      AddedKeys(ks[1..], bo + ks[0].isize, ro + ks[0].irecs, w, r);
    }
  }

  /** A region is added for a key with sensible fields that lies in the wanted extent, and for no
      other. */
  lemma {:induction false} AddedInExtent(ks: seq<OpaqueKey>, bo: nat, ro: nat, w: Want, r: Region)
    requires r in AddedRegions(ks, bo, ro, w)
    ensures 0 <= r.key.level && 0 < r.key.osize && 0 < r.key.isize && 0 <= r.key.irecs
    ensures if w.byrec then r.recofs < w.end && w.start < r.recofs + r.key.irecs
            else r.byteofs < w.end && w.start < r.byteofs + r.key.isize
  {
    if !Usable(ks[0]) {
      AddedInExtent(ks[1..], bo, ro, w, r);
    } else if r in AddedRegions(ks[1..], bo + ks[0].isize, ro + ks[0].irecs, w) {
      AddedInExtent(ks[1..], bo + ks[0].isize, ro + ks[0].irecs, w, r);
    }
  }

  // ----- an answer -----

  function RecsOf(k: OpaqueKey): nat { if k.irecs < 0 then 0 else k.irecs }

  /** What one region gets from a chunk: data to deliver, a report of loss, or smaller regions. */
  function DataOf(c: Crypto, r: Region, cyph: bytes): seq<Part> {
    var x := Examine(c, r.key, cyph);
    if x.Data? then [Part(r.byteofs, r.recofs, x.plain, RecsOf(r.key))] else []
  }

  function LossOf(c: Crypto, r: Region, cyph: bytes): seq<Region> {
    if Examine(c, r.key, cyph).BadChunk? then [r] else []
  }

  function BelowOf(c: Crypto, r: Region, cyph: bytes): seq<Region> {
    var x := Examine(c, r.key, cyph);
    if x.SubKeys? then AddedRegions(x.keys, r.byteofs, r.recofs, r.want) else []
  }

  /** The same for all regions that wait for the chunk. */
  function Delivered(c: Crypto, rs: seq<Region>, cyph: bytes): seq<Part> {
    if rs == [] then [] else DataOf(c, rs[0], cyph) + Delivered(c, rs[1..], cyph)
  }

  function Failed(c: Crypto, rs: seq<Region>, cyph: bytes): seq<Region> {
    if rs == [] then [] else LossOf(c, rs[0], cyph) + Failed(c, rs[1..], cyph)
  }

  function Expanded(c: Crypto, rs: seq<Region>, cyph: bytes): seq<Region> {
    if rs == [] then [] else Expanded(c, rs[1..], cyph) + BelowOf(c, rs[0], cyph)
  }

  /** The table and the calls after one region, and after several, have been served. */
  function AfterRegion(c: Crypto, s: ReadState, r: Region, cyph: bytes): ReadState {
    var new_ := BelowOf(c, r, cyph);
    ReadState(new_ + s.regions, s.requested + HashesOf(new_), s.got + DataOf(c, r, cyph),
              s.lost + LossOf(c, r, cyph), s.done)
  }

  function AfterRegions(c: Crypto, s: ReadState, rs: seq<Region>, cyph: bytes): ReadState
    decreases |rs|
  {
    if rs == [] then s else AfterRegions(c, AfterRegion(c, s, rs[0], cyph), rs[1..], cyph)
  }

  lemma {:induction false} AfterRegionsIs(c: Crypto, s: ReadState, rs: seq<Region>, cyph: bytes)
    ensures AfterRegions(c, s, rs, cyph) ==
            ReadState(Expanded(c, rs, cyph) + s.regions, s.requested + HashesOf(Expanded(c, rs, cyph)),
                      s.got + Delivered(c, rs, cyph), s.lost + Failed(c, rs, cyph), s.done)
    decreases |rs|
  {
    if rs == [] {
      assert [] + s.regions == s.regions && s.requested + [] == s.requested;
      assert s.got + [] == s.got && s.lost + [] == s.lost;
    } else {
      var tail := Expanded(c, rs[1..], cyph);
      AfterRegionsIs(c, AfterRegion(c, s, rs[0], cyph), rs[1..], cyph);
      HashesConcat(tail, BelowOf(c, rs[0], cyph));
      Assoc(tail, BelowOf(c, rs[0], cyph), s.regions);
      Assoc(s.requested, HashesOf(BelowOf(c, rs[0], cyph)), HashesOf(tail));
      Assoc(s.got, DataOf(c, rs[0], cyph), Delivered(c, rs[1..], cyph));
      Assoc(s.lost, LossOf(c, rs[0], cyph), Failed(c, rs[1..], cyph));
    }
  }

  /** A key chunk that lists its own outer hash: there is none, short of a fixed point of the
      hash function. */
  predicate ListsItself(x: Chunk, h: OuterHash) {
    x.SubKeys? && exists k :: k in x.keys && k.ohash == h
  }

  predicate NoneListsItself(c: Crypto, rs: seq<Region>, cyph: bytes, h: OuterHash) {
    forall r :: r in rs ==> !ListsItself(Examine(c, r.key, cyph), h)
  }

  lemma {:induction false} ExpandedWaitElsewhere(c: Crypto, rs: seq<Region>, cyph: bytes, h: OuterHash)
    requires NoneListsItself(c, rs, cyph, h)
    ensures forall r :: r in Expanded(c, rs, cyph) ==> r.key.ohash != h
  {
    if rs != [] {
      ExpandedWaitElsewhere(c, rs[1..], cyph, h);
      assert rs[0] in rs;
      var x := Examine(c, rs[0].key, cyph);
      forall r | r in BelowOf(c, rs[0], cyph) ensures r.key.ohash != h {
        AddedKeys(x.keys, rs[0].byteofs, rs[0].recofs, rs[0].want, r);
      }
    }
  }

  /** The end is announced when, after an answer, nothing is pending. */
  function Announce(s: ReadState): ReadState {
    if s.regions == [] then s.(done := s.done + 1) else s
  }

  /** `gotData`: at the end everything that waits for the chunk is removed, the regions just added
      included. */
  function Served(c: Crypto, s: ReadState, h: OuterHash, cyph: bytes): ReadState {
    var rs := Waiting(s.regions, h);
    var new_ := Expanded(c, rs, cyph);
    Announce(ReadState(Others(new_ + s.regions, h), s.requested + HashesOf(new_),
                       s.got + Delivered(c, rs, cyph), s.lost + Failed(c, rs, cyph), s.done))
  }

  /** The same when no region just added waits for the chunk. */
  function AfterData(c: Crypto, s: ReadState, h: OuterHash, cyph: bytes): ReadState {
    var rs := Waiting(s.regions, h);
    var new_ := Expanded(c, rs, cyph);
    Announce(ReadState(new_ + Others(s.regions, h), s.requested + HashesOf(new_),
                       s.got + Delivered(c, rs, cyph), s.lost + Failed(c, rs, cyph), s.done))
  }

  /** No region is dropped exactly if none of those added waits for the chunk that listed it. */
  lemma ServedIff(c: Crypto, s: ReadState, h: OuterHash, cyph: bytes)
    ensures Served(c, s, h, cyph) == AfterData(c, s, h, cyph) <==>
            forall r :: r in Expanded(c, Waiting(s.regions, h), cyph) ==> r.key.ohash != h
  {
    var new_ := Expanded(c, Waiting(s.regions, h), cyph);
    OthersSize(new_, s.regions, h);
    if forall r :: r in new_ ==> r.key.ohash != h {
      OthersKeep(new_, s.regions, h);
    }
  }

  /** `noData`. */
  function AfterNoData(s: ReadState, h: OuterHash): ReadState {
    Announce(s.(regions := Others(s.regions, h), lost := s.lost + Waiting(s.regions, h)))
  }

  /** `readBytes` and `readRecords`: inline data is delivered at once and whole. */
  function AfterRead(s: ReadState, info: OpaqueInfo, w: Want): ReadState
    requires !info.Null?
  {
    match info
    case Inline1(dat) => s.(got := s.got + [Part(0, 0, dat, 1)], done := s.done + 1)
    case InlineRecs(n, dat) =>
      s.(got := s.got + [Part(0, 0, dat, if n < 0 then 0 else n)], done := s.done + 1)
    case Indirect(kl) =>
      var new_ := AddedRegions(kl, 0, 0, w);
      s.(regions := new_ + s.regions, requested := s.requested + HashesOf(new_))
  }
}
