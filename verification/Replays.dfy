/** What one more record does to the replay of an index file, said of the fields of the record. */
module Replays {
  import opened Bytes
  import opened Xdr
  import opened FileMeta
  import opened IndexLog
  import opened IndexStore
  import opened Layouts

  /** The replay of a log with one more record. */
  lemma ReplayMore(ws: seq<Written>, e: Entry, s: bytes, disk: Disk)
    requires LogOk(ws) && EntryFits(e) && IsEntry(e, s)
    ensures ReplayAll(Body(ws) + s, disk) ==
            if ReplayAll(Body(ws), disk).None? || !Good(e) then None
            else Some(Apply(ReplayAll(Body(ws), disk).value, ReadEntry(s), disk))
  {
    var w := Written(e, s);
    LogSnoc(ws, w);
    ReplayLog(ws, disk);
    ReplayLog(ws + [w], disk);
    GoodLast(Entries(ws), e);
    AsReadSnoc(ws, w);
    ApplyLast(NO_TABLES, AsRead(ws), ReadEntry(s), disk);
  }

  lemma AsReadSnoc(ws: seq<Written>, w: Written)
    ensures AsRead(ws + [w]) == AsRead(ws) + [ReadEntry(w.s)]
  {
    assert (ws + [w])[..|ws|] == ws;
  }

  /** A location keeps a log replayable exactly if it has a hash, a path and a positive length,
      wherever it begins; it is then known in addition. */
  lemma LocationReplays(ws: seq<Written>, ohash: bytes, path: bytes, ofs: int, len: int, s: bytes, disk: Disk)
    requires LogOk(ws) && EntryFits(ChunkEntry(ohash, FileChunk(path, ofs, len)))
    requires IsEntry(ChunkEntry(ohash, FileChunk(path, ofs, len)), s)
    ensures var t, t' := ReplayAll(Body(ws), disk), ReplayAll(Body(ws) + s, disk);
            (t'.Some? <==> t.Some? && ohash != [] && path != [] && len > 0) &&
            (t'.Some? ==> t'.value.infos == t.value.infos && t'.value.metas == t.value.metas &&
                          forall h :: LocationsIn(t'.value.files, h) == LocationsIn(t.value.files, h) +
                            if h == ohash then {FileChunk(path, ofs, len)} else {})
  {
    ReplayMore(ws, ChunkEntry(ohash, FileChunk(path, ofs, len)), s, disk);
    EntryRoundTrip(ChunkEntry(ohash, FileChunk(path, ofs, len)), s, []);
  }

  /** A metadata chunk keeps it replayable exactly if it has a hash, a name and a positive length; it
      is then known by that name if there is a file of that name and length. */
  lemma ChunkReplays(ws: seq<Written>, ohash: bytes, name: bytes, len: int, s: bytes, disk: Disk)
    requires LogOk(ws) && EntryFits(MetaEntry(ohash, name, len)) && IsEntry(MetaEntry(ohash, name, len), s)
    ensures var t, t' := ReplayAll(Body(ws), disk), ReplayAll(Body(ws) + s, disk);
            (t'.Some? <==> t.Some? && ohash != [] && name != [] && len > 0) &&
            (t'.Some? ==> t'.value.infos == t.value.infos && t'.value.files == t.value.files &&
                          t'.value.metas == if disk(name, len) then t.value.metas[ohash := name] else t.value.metas)
  {
    ReplayMore(ws, MetaEntry(ohash, name, len), s, disk);
    EntryRoundTrip(MetaEntry(ohash, name, len), s, []);
  }

  /** A file info keeps it replayable exactly if it has a path and a type; it then replaces the one
      known for that path, unchanged if it is within the limits. */
  lemma InfoReplays(ws: seq<Written>, path: bytes, info: FileInfo, s: bytes, disk: Disk)
    requires LogOk(ws) && EntryFits(InfoEntry(path, info)) && IsEntry(InfoEntry(path, info), s)
    ensures var t, t' := ReplayAll(Body(ws), disk), ReplayAll(Body(ws) + s, disk);
            (t'.Some? <==> t.Some? && path != [] && info.t != 0) &&
            (t'.Some? ==> t'.value.metas == t.value.metas && t'.value.files == t.value.files &&
                          path in t'.value.infos && t'.value.infos == t.value.infos[path := t'.value.infos[path]] &&
                          (t'.value.infos[path] == info <==>
                            |info.at| <= 256 && forall tag :: tag in info.at ==> |info.at[tag]| <= 65536))
  {
    ReplayMore(ws, InfoEntry(path, info), s, disk);
    EntryRoundTrip(InfoEntry(path, info), s, []);
  }

  // ----- the index -----

  /** The file of an index can be replayed, whatever chunk files are left, exactly if every location
      added has a hash, a path and a positive length, every metadata chunk a hash, a name and a
      positive length, and every file info a path and a type. */
  lemma IndexReplaysIff(ix: Index, disk: Disk)
    requires ix.Valid()
    ensures GetRecords(ix.indexfile).Got?
    ensures ReplayAll(GetRecords(ix.indexfile).rest, disk).Some? <==>
            forall e :: e in ix.Added() ==>
              match e
              case ChunkEntry(ohash, fc) => ohash != [] && fc.path != [] && fc.len > 0
              case MetaEntry(ohash, name, len) => ohash != [] && name != [] && len > 0
              case InfoEntry(path, info) => path != [] && info.t != 0
  {
    ix.ReplayRestores(disk);
    assert AllGood(ix.Added()) <==> forall e :: e in ix.Added() ==> Good(e) by {
      forall e | AllGood(ix.Added()) && e in ix.Added() ensures Good(e) {
        var k :| 0 <= k < |ix.Added()| && ix.Added()[k] == e;
      }
    }
  }

  // ----- files that are not taken -----

  /** A file is taken for an index exactly if it begins with the signature and the version. */
  lemma HeaderIff(file: bytes)
    ensures GetRecords(file).Got? <==> |file| >= 12 && file[..8] == PutI64(INDEXSIG) && file[8..12] == PutI32(2)
    ensures GetRecords(file).Got? ==> GetRecords(file).rest == file[12..]
  {
    OnlyI64(file, INDEXSIG);
    if |file| >= 8 {
      OnlyI32(file[8..], 2);
    }
  }

  /** A file found corrupt behind some records: up to there it has been read. */
  lemma {:induction false} ReachedPrefix(dec: Decoder, ws: seq<Written>, rest: bytes, t: Tables, disk: Disk,
                                         n: nat, m: nat)
    requires ReadsBack(dec) && LogOk(ws) && AllGood(AsRead(ws)) && n == m + |ws|
    ensures Reached(dec, Body(ws) + rest, t, disk, n) == Reached(dec, rest, ApplyAll(t, AsRead(ws), disk), disk, m)
    decreases |ws|
  {
    if ws == [] {
      Nothing(rest);
    } else {
      var a, w := SplitLog(ws);
      EntryRoundTrip(w.e, w.s, []);
      Assoc(Body(a), w.s, rest);
      GoodLast(AsRead(a), ReadEntry(w.s));
      ReachedPrefix(dec, a, w.s + rest, t, disk, n, m + 1);
      assert dec(w.s + rest) == Got(ReadEntry(w.s), rest);
      ReachedNext(dec, w.s + rest, ApplyAll(t, AsRead(a), disk), disk, m + 1, Got(ReadEntry(w.s), rest));
      ApplyLast(t, AsRead(a), ReadEntry(w.s), disk);
    }
  }

  /** With unreadable bytes behind good records a replay fails, and has read the records, no more
      and no less. */
  lemma ReachedAre(ws: seq<Written>, rest: bytes, disk: Disk)
    requires LogOk(ws) && AllGood(Entries(ws)) && |rest| >= TAG_SIZE && GetEntry(rest).Bad?
    ensures var s := Body(ws) + rest;
            ReplayAll(s, disk).None? &&
            Reached(GetEntry, s, NO_TABLES, disk, |s|) == ApplyAll(NO_TABLES, AsRead(ws), disk)
  {
    var s, t := Body(ws) + rest, ApplyAll(NO_TABLES, AsRead(ws), disk);
    RecordsNotEmpty(ws);
    GetEntryReadsBack();
    GoodAsRead(ws);
    ReachedPrefix(GetEntry, ws, rest, NO_TABLES, disk, |s|, |s| - |ws|);
    ReplayPrefix(GetEntry, ws, rest, NO_TABLES, disk, |s|, |s| - |ws|);
    ReachedNext(GetEntry, rest, t, disk, |s| - |ws|, Bad);
    ReplayNext(GetEntry, rest, t, disk, |s| - |ws|, Bad);
  }
}
