/** The file index as it is written: tables in memory, and a file that every change is appended to
    and that fills the tables again. */
module IndexStore {
  import opened Bytes
  import opened Listing
  import opened Xdr
  import opened FileMeta
  import opened IndexLog
  import opened OpaqueMeta
  import opened KeyTree
  import Coder

  const INDEXSIG: int := 0x5658_4169_6e64_6578
  const INDEXVER: int := 2

  function FileHeader(): (s: bytes)
    ensures |s| == 12
  {
    PutI64(INDEXSIG) + PutI32(INDEXVER)
  }

  /** The records of an index file, unless its header is wrong. */
  function GetRecords(file: bytes): Read<()> {
    var (sig, s1) :- GetI64(file);
    var (ver, s2) :- GetI32(s1);
    if sig == INDEXSIG && ver == INDEXVER then Got((), s2) else Bad
  }

  lemma HeaderRoundTrip(s: bytes)
    ensures GetRecords(FileHeader() + s) == Got((), s)
  {
    Assoc(PutI64(INDEXSIG), PutI32(INDEXVER), s);
    I64RoundTrip(INDEXSIG, PutI32(INDEXVER) + s);
    I32RoundTrip(INDEXVER, s);
  }

  lemma OpaqueShrinks(s: bytes)
    ensures GetOpaque(s).Got? ==> |GetOpaque(s).rest| <= |s|
  {
  }

  lemma I32Shrinks(s: bytes)
    ensures GetI32(s).Got? ==> |GetI32(s).rest| < |s|
  {
  }

  lemma {:induction false} AttrsShrink(s: bytes, i: nat, n: nat, at: map<Attr, bytes>, a: Read<(Attr, bytes)>)
    requires i < n ==> a == GetAttr(s)
    ensures GetAttrs(s, i, n, at).Got? ==> |GetAttrs(s, i, n, at).rest| <= |s|
    decreases n - i
  {
    if i < n && a.Got? {
      NextAttr(s, i, n, at, a);
      AttrShrinks(s);
      AttrsShrink(a.rest, i + 1, n, AddAttr(at, i, a.value.0, a.value.1), GetAttr(a.rest));
    }
  }

  lemma AttrShrinks(s: bytes)
    ensures GetAttr(s).Got? ==> |GetAttr(s).rest| <= |s|
  {
    I32Shrinks(s);
    if GetI32(s).Got? {
      OpaqueShrinks(GetI32(s).rest);
    }
  }

  lemma FileInfoShrinks(s: bytes)
    ensures GetFileInfo(s).Got? ==> |GetFileInfo(s).rest| <= |s|
  {
    I32Shrinks(s);
    if GetI32(s).Got? {
      var s1 := GetI32(s).rest;
      I32Shrinks(s1);
      if GetI32(s1).Got? && GetI32(s1).value >= 0 {
        AttrsShrink(GetI32(s1).rest, 0, GetI32(s1).value, map[], GetAttr(GetI32(s1).rest));
      }
    }
  }

  lemma InfoShrinks(s: bytes)
    ensures GetInfoEntry(s).Got? ==> |GetInfoEntry(s).rest| <= |s|
  {
    OpaqueShrinks(s);
    if GetOpaque(s).Got? {
      FileInfoShrinks(GetOpaque(s).rest);
    }
  }

  lemma ChunkShrinks(s: bytes)
    ensures GetChunkEntry(s).Got? ==> |GetChunkEntry(s).rest| <= |s|
  {
    OpaqueShrinks(s);
    if GetOpaque(s).Got? {
      OpaqueShrinks(GetOpaque(s).rest);
    }
  }

  lemma MetaShrinks(s: bytes)
    ensures GetMetaEntry(s).Got? ==> |GetMetaEntry(s).rest| <= |s|
  {
    OpaqueShrinks(s);
    if GetOpaque(s).Got? {
      OpaqueShrinks(GetOpaque(s).rest);
    }
  }

  lemma BodyShrinks(tag: int, s: bytes)
    ensures GetBody(tag, s).Got? ==> |GetBody(tag, s).rest| <= |s|
  {
    if tag == 1 {
      ChunkShrinks(s);
    } else if tag == 2 {
      MetaShrinks(s);
    } else if tag == 3 {
      InfoShrinks(s);
    }
  }

  /** Every record takes bytes. */
  lemma EntryShrinks(s: bytes)
    ensures GetEntry(s).Got? ==> |GetEntry(s).rest| < |s|
  {
    I32Shrinks(s);
    if GetI32(s).Got? {
      BodyShrinks(GetI32(s).value, GetI32(s).rest);
    }
  }

  /** What a replay finds of the metadata chunk files. */
  function OnDir(dir: map<bytes, bytes>): Disk { (name, len) => name in dir && |dir[name]| == len }

  /** The tables in memory know all file infos of the log, and no more of the rest. */
  ghost predicate Mirrors(mem: Tables, log: Tables) {
    var Tables(infos, metas, files) := log;
    mem.infos == infos &&
    (forall h :: h in mem.metas ==> mem.metas[h] != [] && h in metas && metas[h] == mem.metas[h]) &&
    Fewer(mem.files, files)
  }

  ghost predicate Fewer(a: map<bytes, set<FileChunk>>, b: map<bytes, set<FileChunk>>) {
    forall h :: LocationsIn(a, h) <= LocationsIn(b, h)
  }

  lemma FewerAdd(a: map<bytes, set<FileChunk>>, b: map<bytes, set<FileChunk>>, h: bytes, fc: FileChunk)
    requires Fewer(a, b)
    ensures Fewer(a[h := LocationsIn(a, h) + {fc}], b[h := LocationsIn(b, h) + {fc}])
  {
    var a', b' := a[h := LocationsIn(a, h) + {fc}], b[h := LocationsIn(b, h) + {fc}];
    forall k ensures LocationsIn(a', k) <= LocationsIn(b', k) {
      assert LocationsIn(a, k) <= LocationsIn(b, k);
    }
  }

  lemma MirrorsForget(mem: Tables, log: Tables, mem': Tables, ohash: bytes)
    requires Mirrors(mem, log) && mem' == mem.(metas := mem.metas - {ohash})
    ensures Mirrors(mem', log)
  {
  }

  lemma FewerForget(a: map<bytes, set<FileChunk>>, b: map<bytes, set<FileChunk>>, h: bytes, fc: FileChunk)
    requires Fewer(a, b) && h in a
    ensures Fewer(a[h := a[h] - {fc}], b)
  {
    var a' := a[h := a[h] - {fc}];
    forall k ensures LocationsIn(a', k) <= LocationsIn(b, k) {
      assert LocationsIn(a, k) <= LocationsIn(b, k);
    }
  }

  lemma MirrorsApply(mem: Tables, log: Tables, e: Entry, mem': Tables, log': Tables)
    requires Mirrors(mem, log) && (e.MetaEntry? ==> e.name != [])
    requires mem' == Apply(mem, e, PRESENT) && log' == Apply(log, e, PRESENT)
    ensures Mirrors(mem', log')
  {
    if e.ChunkEntry? {
      FewerAdd(mem.files, log.files, e.ohash, e.fc);
    }
  }

  /** The chunk files have no say in the file infos and the locations. */
  lemma {:induction false} DiskAndTables(es: seq<Entry>, disk: Disk)
    ensures ApplyAll(NO_TABLES, es, disk).infos == ApplyAll(NO_TABLES, es, PRESENT).infos
    ensures ApplyAll(NO_TABLES, es, disk).files == ApplyAll(NO_TABLES, es, PRESENT).files
  {
    if es != [] {
      DiskAndTables(es[..|es| - 1], disk);
    }
  }

  /** What a replay of the whole log restores of the tables in memory. */
  ghost predicate Restores(mem: Tables, r: Tables, es: seq<Entry>, disk: Disk) {
    r.infos.Keys == mem.infos.Keys &&
    (r.infos == mem.infos <==> forall p :: p in mem.infos ==> WithinLimits(mem.infos[p])) &&
    Fewer(mem.files, r.files) &&
    (forall h :: h in mem.metas && disk(mem.metas[h], LastLen(es, h)) ==> h in r.metas && r.metas[h] == mem.metas[h])
  }

  lemma RestoresMirror(mem: Tables, r: Tables, ws: seq<Written>, disk: Disk)
    requires LogOk(ws) && AllGood(Entries(ws)) && ReplayAll(Body(ws), disk) == Some(r)
    requires Mirrors(mem, ApplyAll(NO_TABLES, Entries(ws), PRESENT))
    ensures Restores(mem, r, Entries(ws), disk)
  {
    var es := Entries(ws);
    RestoredIff(ws, disk);
    DiskAndTables(es, disk);
    forall h | h in mem.metas && disk(mem.metas[h], LastLen(es, h))
      ensures h in r.metas && r.metas[h] == mem.metas[h]
    {
      MetaOnDisk(es, disk, h);
    }
  }

  // ----- metadata chunk files -----

  /** The chunk is known and its file holds it. */
  predicate Holds(c: Crypto, metas: map<bytes, bytes>, dir: map<bytes, bytes>, h: bytes) {
    h in metas && metas[h] in dir && dir[metas[h]] != [] && c.sha512(dir[metas[h]]) == h
  }

  /** Every known metadata chunk has its file, of the length recorded last. */
  ghost predicate AllHeld(c: Crypto, metas: map<bytes, bytes>, dir: map<bytes, bytes>, es: seq<Entry>) {
    forall h :: h in metas ==> Holds(c, metas, dir, h) && |dir[metas[h]]| == LastLen(es, h)
  }

  lemma LastLenSnoc(es: seq<Entry>, e: Entry, h: bytes)
    ensures LastLen(es + [e], h) == if e.MetaEntry? && e.ohash == h then e.len else LastLen(es, h)
  {
    assert (es + [e])[..|es|] == es;
  }

  lemma HeldAdd(c: Crypto, metas: map<bytes, bytes>, dir: map<bytes, bytes>, es: seq<Entry>, e: Entry)
    requires !e.MetaEntry?
    ensures AllHeld(c, metas, dir, es) ==> AllHeld(c, metas, dir, es + [e])
  {
    forall h ensures LastLen(es + [e], h) == LastLen(es, h) {
      LastLenSnoc(es, e, h);
    }
  }

  lemma HeldAddMeta(c: Crypto, metas: map<bytes, bytes>, dir: map<bytes, bytes>, es: seq<Entry>, h: bytes,
                    name: bytes, data: bytes)
    requires h !in metas && name !in dir && data != []
    ensures AllHeld(c, metas, dir, es) && c.sha512(data) == h ==>
              AllHeld(c, metas[h := name], dir[name := data], es + [MetaEntry(h, name, |data|)])
  {
    if AllHeld(c, metas, dir, es) && c.sha512(data) == h {
      var metas', dir', es' := metas[h := name], dir[name := data], es + [MetaEntry(h, name, |data|)];
      forall k | k in metas' ensures Holds(c, metas', dir', k) && |dir'[metas'[k]]| == LastLen(es', k) {
        LastLenSnoc(es, MetaEntry(h, name, |data|), k);
        assert k != h ==> Holds(c, metas, dir, k);
      }
    }
  }

  lemma NotHeld(c: Crypto, metas: map<bytes, bytes>, dir: map<bytes, bytes>, es: seq<Entry>, h: bytes)
    requires h in metas && !Holds(c, metas, dir, h)
    ensures !AllHeld(c, metas, dir, es)
  {
  }

  lemma WithoutAbsent<K, V>(m: map<K, V>, k: K)
    requires k !in m
    ensures m - {k} == m
  {
  }

  /** The chunk files without the one of a chunk, if it is known. */
  function WithoutFile(dir: map<bytes, bytes>, metas: map<bytes, bytes>, h: bytes): map<bytes, bytes> {
    if h in metas then dir - {metas[h]} else dir
  }

  // ----- replaying a file that may be corrupt -----

  /** The tables as they are when the replay ends or finds the log corrupt. */
  function Reached(dec: Decoder, s: bytes, t: Tables, disk: Disk, n: nat): Tables
    decreases n
  {
    if |s| < TAG_SIZE || n == 0 then t
    else match dec(s)
      case Bad => t
      case Got(e, rest) => if Good(e) then Reached(dec, rest, Apply(t, e, disk), disk, n - 1) else t
  }

  lemma ReachedNext(dec: Decoder, s: bytes, t: Tables, disk: Disk, n: nat, r: Read<Entry>)
    requires |s| >= TAG_SIZE && n > 0 && r == dec(s)
    ensures Reached(dec, s, t, disk, n) ==
            if r.Got? && Good(r.value) then Reached(dec, r.rest, Apply(t, r.value, disk), disk, n - 1) else t
  {
  }

  /** A whole log replays to the tables reached. */
  lemma {:induction false} ReplayReaches(dec: Decoder, s: bytes, t: Tables, disk: Disk, n: nat)
    ensures Replay(dec, s, t, disk, n).Some? ==> Replay(dec, s, t, disk, n) == Some(Reached(dec, s, t, disk, n))
    decreases n
  {
    if |s| >= TAG_SIZE && n > 0 && dec(s).Got? && Good(dec(s).value) {
      ReplayReaches(dec, dec(s).rest, Apply(t, dec(s).value, disk), disk, n - 1);
    }
  }

  // ----- what a replay has in common with the records -----

  /** The file of an index: good records, and perhaps bytes too few for another one. */
  ghost predicate IsFile(file: bytes, recs: seq<Written>, junk: bytes) {
    LogOk(recs) && AllGood(Entries(recs)) && |junk| < TAG_SIZE && file == FileHeader() + (Body(recs) + junk)
  }

  ghost predicate AllWithin(infos: map<bytes, FileInfo>) { forall p :: p in infos ==> WithinLimits(infos[p]) }

  /** No older file of a chunk is taken because the one recorded last is gone. */
  ghost predicate LastNames(metas: map<bytes, bytes>, last: map<bytes, bytes>) {
    forall h :: h in metas ==> h in last && last[h] == metas[h]
  }

  lemma {:induction false} NamesGood(es: seq<Entry>, disk: Disk, h: bytes)
    requires AllGood(es) && h in ApplyAll(NO_TABLES, es, disk).metas
    ensures ApplyAll(NO_TABLES, es, disk).metas[h] != []
  {
    if es != [] {
      var n := |es| - 1;
      assert Good(es[n]) && AllGood(es[..n]);
      if h in ApplyAll(NO_TABLES, es[..n], disk).metas {
        NamesGood(es[..n], disk, h);
      }
    }
  }

  lemma AllNamesGood(es: seq<Entry>, disk: Disk, metas: map<bytes, bytes>)
    requires AllGood(es) && metas == ApplyAll(NO_TABLES, es, disk).metas
    ensures forall h :: h in metas ==> metas[h] != []
  {
    forall h | h in metas ensures metas[h] != [] {
      NamesGood(es, disk, h);
    }
  }

  lemma InfosKept(t: Tables, r: Tables)
    requires SameButLost(t, r)
    ensures r.infos == t.infos <==> AllWithin(t.infos)
  {
    if AllWithin(t.infos) {
      SameMaps(r.infos, t.infos);
    }
  }

  lemma MirrorsIff(mem: Tables, log: Tables)
    requires mem.files == log.files && forall h :: h in mem.metas ==> mem.metas[h] != []
    ensures Mirrors(mem, log) <==> mem.infos == log.infos && LastNames(mem.metas, log.metas)
  {
  }

  /** The tables of a replay are those the records describe exactly if all file infos are within
      the limits and every metadata chunk has its last name. */
  lemma ReplayMirrors(recs: seq<Written>, disk: Disk, mem: Tables, log: Tables)
    requires LogOk(recs) && AllGood(Entries(recs))
    requires mem == ApplyAll(NO_TABLES, AsRead(recs), disk) && log == ApplyAll(NO_TABLES, Entries(recs), PRESENT)
    ensures Mirrors(mem, log) <==> AllWithin(log.infos) && LastNames(mem.metas, log.metas)
  {
    ReadTables(recs, disk);
    DiskAndTables(Entries(recs), disk);
    GoodAsRead(recs);
    AllNamesGood(AsRead(recs), disk, mem.metas);
    InfosKept(ApplyAll(NO_TABLES, Entries(recs), disk), mem);
    MirrorsIff(mem, log);
  }

  lemma {:induction false} RecordedMetas(es: seq<Entry>, disk: Disk, h: bytes)
    requires h in ApplyAll(NO_TABLES, es, disk).metas
    ensures h in ApplyAll(NO_TABLES, es, PRESENT).metas
  {
    if es != [] && h in ApplyAll(NO_TABLES, es[..|es| - 1], disk).metas {
      RecordedMetas(es[..|es| - 1], disk, h);
    }
  }

  /** With every last file there, every metadata chunk is found under its last name. */
  lemma AllFilesThere(recs: seq<Written>, disk: Disk, mem: Tables, log: Tables)
    requires LogOk(recs)
    requires mem == ApplyAll(NO_TABLES, AsRead(recs), disk) && log == ApplyAll(NO_TABLES, Entries(recs), PRESENT)
    requires forall h :: h in log.metas ==> disk(log.metas[h], LastLen(Entries(recs), h))
    ensures mem.metas == log.metas
  {
    var es := Entries(recs);
    ReadTables(recs, disk);
    forall h | h in log.metas ensures h in mem.metas && mem.metas[h] == log.metas[h] {
      MetaOnDisk(es, disk, h);
    }
    forall h | h in mem.metas ensures h in log.metas && log.metas[h] == mem.metas[h] {
      RecordedMetas(es, disk, h);
    }
    SameMaps(log.metas, mem.metas);
  }

  /** A location is good if the file still has the bytes there, and they make the chunk. */
  function Encoded(c: Crypto, data: bytes): (OuterHash, bytes) {
    (c.sha512(Encrypt(c, data)), Encrypt(c, data))
  }

  predicate Current(c: Crypto, ohash: bytes, fc: FileChunk, content: FileChunk -> bytes) {
    |content(fc)| == fc.len && Encoded(c, content(fc)).0 == ohash
  }

  /** The locations `bad` of one chunk have been forgotten, and nothing else. */
  ghost predicate Forgot(a: map<bytes, set<FileChunk>>, b: map<bytes, set<FileChunk>>, ohash: bytes,
                         bad: set<FileChunk>) {
    forall h :: LocationsIn(b, h) == LocationsIn(a, h) - if h == ohash then bad else {}
  }

  lemma ForgotMore(a: map<bytes, set<FileChunk>>, b: map<bytes, set<FileChunk>>, ohash: bytes,
                   bad: set<FileChunk>, fc: FileChunk)
    requires Forgot(a, b, ohash, bad) && ohash in b
    ensures Forgot(a, b[ohash := b[ohash] - {fc}], ohash, bad + {fc})
  {
    var c := b[ohash := b[ohash] - {fc}];
    forall h ensures LocationsIn(c, h) == LocationsIn(a, h) - if h == ohash then bad + {fc} else {} {
      assert LocationsIn(b, h) == LocationsIn(a, h) - if h == ohash then bad else {};
    }
  }

  lemma FileReplays(file: bytes, recs: seq<Written>, junk: bytes, disk: Disk)
    ensures IsFile(file, recs, junk) ==>
              GetRecords(file) == Got((), Body(recs) + junk) &&
              ReplayAll(Body(recs) + junk, disk) == Some(ApplyAll(NO_TABLES, AsRead(recs), disk))
  {
    if IsFile(file, recs, junk) {
      HeaderRoundTrip(Body(recs) + junk);
      ReplayIff(recs, junk, disk);
    }
  }

  lemma SameFile(recs: seq<Written>, junk: bytes)
    ensures FileHeader() + (Body(recs) + junk) == FileHeader() + Body(recs) <==> junk == []
  {
    if junk == [] {
      Nothing(Body(recs));
    } else {
      assert |FileHeader() + (Body(recs) + junk)| > |FileHeader() + Body(recs)|;
    }
  }

  class Index {
    const crypto: Crypto

    var indexfile: bytes
    var dir: map<bytes, bytes> // the metadata chunk files
    var infos: map<bytes, FileInfo>
    var metas: map<bytes, bytes>
    var files: map<bytes, set<FileChunk>>

    // The records of the file, and what they say
    ghost var ws: seq<Written>
    ghost var log: Tables

    function Memory(): Tables
      reads `infos, `metas, `files
    {
      Tables(infos, metas, files)
    }

    /** The file is a header and the records. */
    ghost predicate OnDisk()
      reads `indexfile, `ws, `log
    {
      LogOk(ws) && indexfile == FileHeader() + Body(ws) && log == ApplyAll(NO_TABLES, Entries(ws), PRESENT)
    }

    /** The records as they were added. */
    ghost function Added(): seq<Entry>
      reads `ws
    {
      Entries(ws)
    }

    /** The tables are those the records describe, less what was forgotten since. */
    ghost predicate Known()
      reads `infos, `metas, `files, `log
    {
      Mirrors(Memory(), log)
    }

    ghost predicate Valid()
      reads `indexfile, `infos, `metas, `files, `ws, `log
    {
      OnDisk() && Known()
    }

    /** No chunk file was damaged or removed behind the index's back. */
    ghost predicate Intact()
      reads this
    {
      AllHeld(crypto, metas, dir, Added())
    }

    /** A new index. */
    constructor (c: Crypto)
      ensures Valid() && Intact() && crypto == c && Added() == [] && dir == map[]
    {
      crypto := c;
      indexfile, dir := FileHeader(), map[];
      infos, metas, files, ws, log := map[], map[], map[], [], NO_TABLES;
    }

    /** `Index::Index` on a file: replays it, or starts anew with an empty file and directory if
        it is corrupt. The file infos read so far are not cleared then. Given the records of a good
        file, the index is in step with it exactly if no stray bytes follow them, all file infos
        are within the limits and no older chunk file was taken for the last one. */
    constructor Open(c: Crypto, file: bytes, d: map<bytes, bytes>, ghost recs: seq<Written>, ghost junk: bytes)
      ensures crypto == c
      ensures IsFile(file, recs, junk) ==>
                ws == recs && indexfile == file && dir == d &&
                Memory() == ApplyAll(NO_TABLES, AsRead(recs), OnDir(d)) &&
                log == ApplyAll(NO_TABLES, Entries(recs), PRESENT) &&
                (OnDisk() <==> junk == []) &&
                (Valid() <==> junk == [] && AllWithin(log.infos) && LastNames(metas, log.metas))
      ensures var r := GetRecords(file);
              if r.Got? && ReplayAll(r.rest, OnDir(d)).Some?
              then indexfile == file && dir == d && Memory() == ReplayAll(r.rest, OnDir(d)).value
              else indexfile == FileHeader() && dir == map[] && metas == map[] && files == map[] &&
                   (infos ==
                    if r.Got? then Reached(GetEntry, r.rest, NO_TABLES, OnDir(d), |r.rest|).infos else map[]) &&
                   (Valid() <==> infos == map[])
    {
      crypto, indexfile, dir := c, file, d;
      infos, metas, files, ws, log := map[], map[], map[], [], NO_TABLES;
      new;
      var r := GetRecords(file);
      if r.Got? {
        var ok := Load(r.rest);
        FileReplays(file, recs, junk, OnDir(d));
        if ok {
          Adopt(recs, junk);
          return;
        }
      }
      FileReplays(file, recs, junk, OnDir(d));
      StartAnew();
    }

    /** The records of a file that has been replayed. */
    ghost method Adopt(recs: seq<Written>, junk: bytes)
      modifies `ws, `log
      ensures IsFile(indexfile, recs, junk) && Memory() == ApplyAll(NO_TABLES, AsRead(recs), OnDir(dir)) ==>
                ws == recs && log == ApplyAll(NO_TABLES, Entries(recs), PRESENT) &&
                (OnDisk() <==> junk == []) &&
                (Valid() <==> junk == [] && AllWithin(log.infos) && LastNames(metas, log.metas))
    {
      if IsFile(indexfile, recs, junk) && Memory() == ApplyAll(NO_TABLES, AsRead(recs), OnDir(dir)) {
        ws, log := recs, ApplyAll(NO_TABLES, Entries(recs), PRESENT);
        ReplayMirrors(recs, OnDir(dir), Memory(), log);
        SameFile(recs, junk);
      }
    }

    /** An empty file and directory. */
    method StartAnew()
      requires ws == [] && log == NO_TABLES
      modifies `indexfile, `dir, `metas, `files
      ensures indexfile == FileHeader() && dir == map[] && metas == map[] && files == map[]
      ensures Valid() <==> infos == map[]
    {
      indexfile, dir, metas, files := FileHeader(), map[], map[], map[];
    }

    /** Replaying the file gives back all locations, every metadata chunk whose file has the
        recorded length, and the file infos with exactly those unchanged that are within the
        limits, if and only if no record was added that the replay refuses. */
    lemma ReplayRestores(disk: Disk)
      requires Valid()
      ensures GetRecords(indexfile) == Got((), Body(ws))
      ensures ReplayAll(Body(ws), disk).Some? <==> AllGood(Added())
      ensures AllGood(Added()) ==> Restores(Memory(), ReplayAll(Body(ws), disk).value, Added(), disk)
    {
      HeaderRoundTrip(Body(ws));
      ReplayLog(ws, disk);
      if AllGood(Added()) {
        RestoresMirror(Memory(), ReplayAll(Body(ws), disk).value, ws, disk);
      }
    }

    /** What the replay does with one record. */
    method Process(e: Entry)
      modifies `infos, `metas, `files
      ensures Memory() == Apply(old(Memory()), e, OnDir(dir))
    {
      match e
      case ChunkEntry(ohash, fc) =>
        files := files[ohash := (if ohash in files then files[ohash] else {}) + {fc}];
      case MetaEntry(ohash, name, len) =>
        if name in dir && |dir[name]| == len {
          metas := metas[ohash := name];
        }
      case InfoEntry(path, info) =>
        infos := infos[path := info];
    }

    /** Fills empty tables from the records of a file. */
    method Load(s: bytes) returns (ok: bool)
      requires Memory() == NO_TABLES
      modifies `infos, `metas, `files
      ensures ok <==> ReplayAll(s, OnDir(dir)).Some?
      ensures ok ==> Memory() == ReplayAll(s, OnDir(dir)).value
      ensures Memory() == Reached(GetEntry, s, NO_TABLES, OnDir(dir), |s|)
    {
      forall r ensures GetEntry(r).Got? ==> |GetEntry(r).rest| < |r| { EntryShrinks(r); }
      ok := LoadWith(GetEntry, s);
      ReplayReaches(GetEntry, s, NO_TABLES, OnDir(dir), |s|);
    }

    /** The replay loop of the constructor. */
    method LoadWith(dec: Decoder, s: bytes) returns (ok: bool)
      requires Shrinks(dec)
      modifies `infos, `metas, `files
      ensures ok <==> Replay(dec, s, old(Memory()), OnDir(dir), |s|).Some?
      ensures Memory() == Reached(dec, s, old(Memory()), OnDir(dir), |s|)
    {
      ghost var disk := OnDir(dir);
      ghost var all := Replay(dec, s, Memory(), disk, |s|);
      ghost var end := Reached(dec, s, Memory(), disk, |s|);
      var rest := s;
      ghost var n: nat := |s|;
      while rest != []
        invariant Replay(dec, rest, Memory(), disk, n) == all && |rest| <= n
        invariant Reached(dec, rest, Memory(), disk, n) == end
        decreases n
      {
        if |rest| < TAG_SIZE {
          return true;
        }
        var e := dec(rest);
        ReplayNext(dec, rest, Memory(), disk, n, e);
        ReachedNext(dec, rest, Memory(), disk, n, e);
        if e.Bad? {
          return false;
        }
        if !Good(e.value) {
          return false;
        }
        Process(e.value);
        rest := e.rest;
        n := n - 1;
      }
      return true;
    }

    /** Appends a record to the file. */
    method AppendRecord(e: Entry, s: bytes)
      requires OnDisk() && EntryFits(e) && IsEntry(e, s)
      modifies `indexfile, `ws, `log
      ensures OnDisk() && Added() == old(Added()) + [e] && log == Apply(old(log), e, PRESENT)
    {
      LogSnoc(ws, Written(e, s));
      ApplyLast(NO_TABLES, Entries(ws), e, PRESENT);
      Assoc(FileHeader(), Body(ws), s);
      indexfile := indexfile + s;
      ws, log := ws + [Written(e, s)], Apply(log, e, PRESENT);
    }

    /** Writes the record of a file and enters it. */
    method WriteInfo(path: bytes, info: FileInfo, s: bytes)
      requires Valid() && EntryFits(InfoEntry(path, info)) && IsEntry(InfoEntry(path, info), s)
      modifies `indexfile, `infos, `ws, `log
      ensures Valid() && Added() == old(Added()) + [InfoEntry(path, info)]
      ensures infos == old(infos)[path := info]
    {
      ghost var mem, before := Memory(), log;
      AppendRecord(InfoEntry(path, info), s);
      infos := infos[path := info];
      MirrorsApply(mem, before, InfoEntry(path, info), Memory(), log);
    }

    /** Writes the record of a location and enters it. */
    method WriteLocation(ohash: bytes, fc: FileChunk)
      requires Valid() && EntryFits(ChunkEntry(ohash, fc))
      modifies `indexfile, `files, `ws, `log
      ensures Valid() && Added() == old(Added()) + [ChunkEntry(ohash, fc)]
      ensures files == old(files)[ohash := LocationsIn(old(files), ohash) + {fc}]
    {
      ghost var mem, before := Memory(), log;
      AppendRecord(ChunkEntry(ohash, fc), ChunkBytes(ohash, fc));
      files := files[ohash := (if ohash in files then files[ohash] else {}) + {fc}];
      MirrorsApply(mem, before, ChunkEntry(ohash, fc), Memory(), log);
    }

    /** `addFileInfo`: a record that compares equal to the one known is not written again. `s` is
        the record as written, with the attributes in any order. */
    method AddFileInfo(path: bytes, info: FileInfo, s: bytes)
      requires Valid() && EntryFits(InfoEntry(path, info)) && IsEntry(InfoEntry(path, info), s)
      modifies `indexfile, `infos, `ws, `log
      ensures Valid() && (old(Intact()) ==> Intact())
      ensures var known := if path in old(infos) then old(infos)[path] else NULL_INFO;
              if SameInfo(known, info) then Added() == old(Added()) && infos == old(infos)
              else Added() == old(Added()) + [InfoEntry(path, info)] && infos == old(infos)[path := info]
    {
      var known := if path in infos then infos[path] else NULL_INFO;
      if SameInfo(known, info) {
        return;
      }
      HeldAdd(crypto, metas, dir, Added(), InfoEntry(path, info));
      WriteInfo(path, info, s);
    }

    /** `addFileChunk`: a location known already is not written again. */
    method AddFileChunk(ohash: bytes, fc: FileChunk)
      requires Valid() && EntryFits(ChunkEntry(ohash, fc))
      modifies `indexfile, `files, `ws, `log
      ensures Valid() && (old(Intact()) ==> Intact())
      ensures if fc in LocationsIn(old(files), ohash) then Added() == old(Added()) && files == old(files)
              else Added() == old(Added()) + [ChunkEntry(ohash, fc)] &&
                   files == old(files)[ohash := LocationsIn(old(files), ohash) + {fc}]
    {
      if ohash in files && fc in files[ohash] {
        return;
      }
      HeldAdd(crypto, metas, dir, Added(), ChunkEntry(ohash, fc));
      WriteLocation(ohash, fc);
    }

    function ChunkBytes(ohash: bytes, fc: FileChunk): (s: bytes)
      requires EntryFits(ChunkEntry(ohash, fc))
      ensures IsEntry(ChunkEntry(ohash, fc), s)
    {
      PutI32(1) + (PutOpaque(ohash) + (PutOpaque(fc.path) + (PutI64(fc.ofs) + PutI32(fc.len))))
    }

    function MetaBytes(ohash: bytes, name: bytes, len: int): (s: bytes)
      requires EntryFits(MetaEntry(ohash, name, len))
      ensures IsEntry(MetaEntry(ohash, name, len), s)
    {
      PutI32(2) + (PutOpaque(ohash) + (PutOpaque(name) + PutI32(len)))
    }

    /** The chunk file is missing or damaged. */
    method ForgetMetaChunk(ohash: bytes)
      requires Valid() && ohash in metas
      modifies `metas, `dir
      ensures Valid() && metas == old(metas) - {ohash} && dir == old(dir) - {old(metas)[ohash]}
    {
      ghost var mem := Memory();
      metas, dir := metas - {ohash}, dir - {metas[ohash]};
      MirrorsForget(mem, log, Memory(), ohash);
    }

    /** The data of the chunk, if its file still holds it. */
    method Inspect(ohash: bytes) returns (data: bytes)
      ensures Holds(crypto, metas, dir, ohash) <==> data != []
      ensures data != [] ==> data == dir[metas[ohash]]
    {
      if ohash !in metas {
        return [];
      }
      data := if metas[ohash] in dir then dir[metas[ohash]] else [];
      if data != [] && crypto.sha512(data) != ohash {
        return [];
      }
    }

    /** `readMetaChunk`: the data of the chunk, if its file still holds it; otherwise the chunk is
        forgotten and the file removed. */
    method ReadMetaChunk(ohash: bytes) returns (data: bytes)
      requires Valid()
      modifies `metas, `dir
      ensures Valid() && (old(Intact()) ==> Intact())
      ensures if Holds(crypto, old(metas), old(dir), ohash)
              then data == old(dir)[old(metas)[ohash]] && metas == old(metas) && dir == old(dir)
              else data == [] && metas == old(metas) - {ohash} && dir == WithoutFile(old(dir), old(metas), ohash)
    {
      data := Inspect(ohash);
      if data == [] {
        if ohash in metas {
          NotHeld(crypto, metas, dir, Added(), ohash);
          ForgetMetaChunk(ohash);
        } else {
          WithoutAbsent(metas, ohash);
        }
      }
    }

    /** `addMetaChunk`, when the chunk file may be called `name`: a chunk whose file holds it is
        left alone. */
    method AddMetaChunk(ohash: bytes, chunkdata: bytes, name: bytes)
      requires Valid() && ohash != [] && |ohash| < TWO32 && 0 < |chunkdata| < TWO31 && 0 < |name| < TWO32
      requires name in dir ==> ohash in metas && name == metas[ohash]
      modifies `indexfile, `metas, `dir, `ws, `log
      ensures Valid()
      ensures if Holds(crypto, old(metas), old(dir), ohash)
              then Added() == old(Added()) && metas == old(metas) && dir == old(dir)
              else Added() == old(Added()) + [MetaEntry(ohash, name, |chunkdata|)] &&
                   metas == (old(metas) - {ohash})[ohash := name] &&
                   dir == WithoutFile(old(dir), old(metas), ohash)[name := chunkdata]
      ensures crypto.sha512(chunkdata) == ohash ==> Holds(crypto, metas, dir, ohash) && (old(Intact()) ==> Intact())
    {
      var have := ReadMetaChunk(ohash);
      if have == [] {
        StoreMetaChunk(ohash, chunkdata, name);
      }
    }

    /** Writes a chunk file and its record. */
    method StoreMetaChunk(ohash: bytes, chunkdata: bytes, name: bytes)
      requires Valid() && ohash !in metas && name !in dir
      requires |ohash| < TWO32 && 0 < |chunkdata| < TWO31 && 0 < |name| < TWO32
      modifies `indexfile, `metas, `dir, `ws, `log
      ensures Valid() && Added() == old(Added()) + [MetaEntry(ohash, name, |chunkdata|)]
      ensures metas == old(metas)[ohash := name] && dir == old(dir)[name := chunkdata]
      ensures crypto.sha512(chunkdata) == ohash && old(Intact()) ==> Intact()
    {
      HeldAddMeta(crypto, metas, dir, Added(), ohash, name, chunkdata);
      WriteMetaChunk(ohash, name, |chunkdata|);
      dir := dir[name := chunkdata];
    }

    /** Writes the record of a metadata chunk and enters it. */
    method WriteMetaChunk(ohash: bytes, name: bytes, len: int)
      requires Valid() && EntryFits(MetaEntry(ohash, name, len)) && name != []
      modifies `indexfile, `metas, `ws, `log
      ensures Valid() && Added() == old(Added()) + [MetaEntry(ohash, name, len)]
      ensures metas == old(metas)[ohash := name]
    {
      ghost var mem, before := Memory(), log;
      AppendRecord(MetaEntry(ohash, name, len), MetaBytes(ohash, name, len));
      metas := metas[ohash := name];
      MirrorsApply(mem, before, MetaEntry(ohash, name, len), Memory(), log);
    }

    method ForgetLocation(ohash: bytes, fc: FileChunk)
      requires Valid() && ohash in files
      modifies `files
      ensures Valid() && files == old(files)[ohash := old(files)[ohash] - {fc}]
    {
      FewerForget(files, log.files, ohash, fc);
      files := files[ohash := files[ohash] - {fc}];
    }

    /** What the file holds at the location is as long as recorded; encrypted with its own hash it is
        `cyph`, which has the hash of the chunk. */
    predicate Holding(ohash: bytes, fc: FileChunk, content: FileChunk -> bytes, cyph: bytes) {
      var data := content(fc);
      |data| == fc.len && cyph == crypto.ctr(crypto.sha256(data), data) && crypto.sha512(cyph) == ohash
    }

    /** One location: the encoded chunk, or a location less. */
    method TryLocation(ohash: bytes, fc: FileChunk, content: FileChunk -> bytes) returns (r: Option<bytes>)
      requires Valid() && ohash in files
      modifies `files
      ensures Valid() && (r.Some? <==> Current(crypto, ohash, fc, content))
      ensures r.Some? ==> Holding(ohash, fc, content, r.value) && files == old(files)
      ensures r.None? ==> files == old(files)[ohash := old(files)[ohash] - {fc}]
    {
      var data := content(fc);
      var key, cyph := Coder.EncDataChunk(crypto, data, 0);
      if |data| == fc.len && key.ohash == ohash {
        return Some(cyph);
      }
      ForgetLocation(ohash, fc);
      return None;
    }

    /** The walk: ends at the first location that still holds the chunk. */
    method TryAll(ohash: bytes, content: FileChunk -> bytes, order: seq<FileChunk>)
      returns (r: Option<bytes>, ghost bad: set<FileChunk>)
      requires Valid() && ohash in files
      modifies `files
      ensures Valid() && Forgot(old(files), files, ohash, bad) && Outdated(ohash, bad, content)
      ensures r.Some? <==> exists j :: 0 <= j < |order| && Current(crypto, ohash, order[j], content)
      ensures r.Some? ==> exists j :: 0 <= j < |order| && Holding(ohash, order[j], content, r.value)
    {
      bad := {};
      ghost var files0 := files;
      var i := 0;
      while i < |order|
        invariant 0 <= i <= |order| && Valid() && ohash in files
        invariant forall j :: 0 <= j < i ==> order[j] in bad
        invariant Forgot(files0, files, ohash, bad) && Outdated(ohash, bad, content)
      {
        ForgotMore(files0, files, ohash, bad, order[i]);
        r := TryLocation(ohash, order[i], content);
        if r.Some? {
          assert Holding(ohash, order[i], content, r.value);
          return;
        }
        OutdatedMore(ohash, bad, order[i], content);
        bad := bad + {order[i]};
        i := i + 1;
      }
      AllOutdated(ohash, bad, order, content);
      r := None;
    }

    lemma OutdatedMore(ohash: bytes, bad: set<FileChunk>, fc: FileChunk, content: FileChunk -> bytes)
      requires Outdated(ohash, bad, content) && !Current(crypto, ohash, fc, content)
      ensures Outdated(ohash, bad + {fc}, content)
    {
    }

    lemma AllOutdated(ohash: bytes, bad: set<FileChunk>, order: seq<FileChunk>, content: FileChunk -> bytes)
      requires Outdated(ohash, bad, content) && forall j :: 0 <= j < |order| ==> order[j] in bad
      ensures !exists j :: 0 <= j < |order| && Current(crypto, ohash, order[j], content)
    {
    }

    /** `readFileChunk`: walks the known locations in any order, forgets those that no longer
        hold the chunk, and encodes the first that does. `content` is what the files hold now. */
    method ReadFileChunk(ohash: bytes, content: FileChunk -> bytes, order: seq<FileChunk>) returns (r: Option<bytes>)
      requires Valid() && Lists(order, LocationsIn(files, ohash))
      modifies `files
      ensures Valid()
      ensures r.Some? <==> exists fc :: fc in LocationsIn(old(files), ohash) && Current(crypto, ohash, fc, content)
      ensures r.Some? ==>
                exists fc :: fc in LocationsIn(old(files), ohash) && Holding(ohash, fc, content, r.value)
      ensures exists bad :: Forgot(old(files), files, ohash, bad) && Outdated(ohash, bad, content)
    {
      if ohash !in files {
        assert Forgot(files, files, ohash, {}) && Outdated(ohash, {}, content);
        return None;
      }
      ghost var bad;
      r, bad := TryAll(ohash, content, order);
    }

    ghost predicate Outdated(ohash: bytes, bad: set<FileChunk>, content: FileChunk -> bytes) {
      forall fc :: fc in bad ==> !Current(crypto, ohash, fc, content)
    }
  }

  /** While the directory is intact a replay finds every metadata chunk. */
  lemma IntactReplays(ix: Index)
    requires ix.Valid() && ix.Intact() && AllGood(ix.Added())
    ensures ReplayAll(Body(ix.ws), OnDir(ix.dir)).Some?
    ensures forall h :: h in ix.metas ==>
              h in ReplayAll(Body(ix.ws), OnDir(ix.dir)).value.metas &&
              ReplayAll(Body(ix.ws), OnDir(ix.dir)).value.metas[h] == ix.metas[h]
  {
    ix.ReplayRestores(OnDir(ix.dir));
  }

  /** An index that has lost no chunk file and holds no file info beyond the limits goes on as it
      was when it is opened again, with the locations it has forgotten. */
  method Reopen(ix: Index) returns (again: Index)
    requires ix.Valid() && ix.Intact() && AllGood(ix.Added()) && AllWithin(ix.infos)
    requires forall h :: h in ix.log.metas ==> h in ix.metas
    ensures fresh(again) && again.Valid() && again.Intact() && again.crypto == ix.crypto
    ensures again.Added() == ix.Added() && again.indexfile == ix.indexfile && again.dir == ix.dir
    ensures again.infos == ix.infos && again.metas == ix.metas && Fewer(ix.files, again.files)
  {
    Nothing(Body(ix.ws));
    again := new Index.Open(ix.crypto, ix.indexfile, ix.dir, ix.ws, []);
    FilesStillThere(ix);
    AllFilesThere(ix.ws, OnDir(ix.dir), again.Memory(), ix.log);
    ReplayMirrors(ix.ws, OnDir(ix.dir), again.Memory(), ix.log);
    SameMaps(ix.metas, again.metas);
    ReadTables(ix.ws, OnDir(ix.dir));
    DiskAndTables(Entries(ix.ws), OnDir(ix.dir));
  }

  lemma FilesStillThere(ix: Index)
    requires ix.Valid() && ix.Intact() && forall h :: h in ix.log.metas ==> h in ix.metas
    ensures forall h :: h in ix.log.metas ==> OnDir(ix.dir)(ix.log.metas[h], LastLen(ix.Added(), h))
  {
    forall h | h in ix.log.metas ensures OnDir(ix.dir)(ix.log.metas[h], LastLen(ix.Added(), h)) {
      assert Holds(ix.crypto, ix.metas, ix.dir, h);
    }
  }

  /** A file with an unknown tag behind a good record: the index starts anew, and still knows the
      file info of the record before, which is in no file any more. */
  lemma StaleInfos(path: bytes, info: FileInfo, s: bytes, d: map<bytes, bytes>)
    requires EntryFits(InfoEntry(path, info)) && IsEntry(InfoEntry(path, info), s)
    requires Good(InfoEntry(path, info)) && WithinLimits(info)
    ensures GetRecords(FileHeader() + (s + PutI32(0))) == Got((), s + PutI32(0))
    ensures ReplayAll(s + PutI32(0), OnDir(d)).None?
    ensures path in Reached(GetEntry, s + PutI32(0), NO_TABLES, OnDir(d), |s + PutI32(0)|).infos
  {
    var e, bad := InfoEntry(path, info), PutI32(0);
    var t := Apply(NO_TABLES, e, OnDir(d));
    var n := |s + bad|;
    HeaderRoundTrip(s + bad);
    EntryRoundTrip(e, s, bad);
    I32RoundTrip(0, []);
    Nothing(bad);
    UnknownTag(bad, 0, []);
    ReplayNext(GetEntry, s + bad, NO_TABLES, OnDir(d), n, Got(e, bad));
    ReachedNext(GetEntry, s + bad, NO_TABLES, OnDir(d), n, Got(e, bad));
    ReplayNext(GetEntry, bad, t, OnDir(d), n - 1, Bad);
    ReachedNext(GetEntry, bad, t, OnDir(d), n - 1, Bad);
  }
}
