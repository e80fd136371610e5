/** The file index on disk: a log of records, and the tables its replay fills. */
module IndexLog {
  import opened Bytes
  import opened Xdr
  import opened FileMeta

  /** A part of a file that holds the cleartext of a chunk. */
  datatype FileChunk = FileChunk(path: bytes, ofs: int, len: int)

  datatype Entry =
    | ChunkEntry(ohash: bytes, fc: FileChunk)
    | MetaEntry(ohash: bytes, name: bytes, len: int)
    | InfoEntry(path: bytes, info: FileInfo)

  datatype Tables = Tables(
    infos: map<bytes, FileInfo>,
    metas: map<bytes, bytes>,
    files: map<bytes, set<FileChunk>>)

  const NO_TABLES := Tables(map[], map[], map[])

  /** Is there a metadata chunk file of this name and length? */
  type Disk = (bytes, int) -> bool

  /** All metadata chunk files are there. */
  const PRESENT: Disk := (_, _) => true

  function LocationsIn(files: map<bytes, set<FileChunk>>, h: bytes): set<FileChunk> {
    if h in files then files[h] else {}
  }

  function Locations(t: Tables, ohash: bytes): set<FileChunk> { LocationsIn(t.files, ohash) }

  // ----- one record -----

  /** The checks the replay makes on a record. */
  predicate Good(e: Entry) {
    match e
    case ChunkEntry(ohash, fc) => ohash != [] && fc.path != [] && fc.len > 0
    case MetaEntry(ohash, name, len) => ohash != [] && name != [] && len > 0
    case InfoEntry(path, info) => path != [] && info.t != NULL_TYPE
  }

  /** The fields fit the widths they are stored in. */
  predicate EntryFits(e: Entry) {
    match e
    case ChunkEntry(ohash, fc) => |ohash| < TWO32 && |fc.path| < TWO32 && IsI64(fc.ofs) && IsI32(fc.len)
    case MetaEntry(ohash, name, len) => |ohash| < TWO32 && |name| < TWO32 && IsI32(len)
    case InfoEntry(path, info) => |path| < TWO32 && Encodable(info)
  }

  /** What is written for a record. The attributes of a file may come in any order. */
  ghost predicate IsEntry(e: Entry, s: bytes)
    requires EntryFits(e)
  {
    match e
    case ChunkEntry(ohash, fc) =>
      s == PutI32(1) + (PutOpaque(ohash) + (PutOpaque(fc.path) + (PutI64(fc.ofs) + PutI32(fc.len))))
    case MetaEntry(ohash, name, len) => s == PutI32(2) + (PutOpaque(ohash) + (PutOpaque(name) + PutI32(len)))
    case InfoEntry(path, info) =>
      exists b :: IsEncoding(info, b) && s == PutI32(3) + (PutOpaque(path) + b)
  }

  function GetChunkEntry(s: bytes): Read<Entry> {
    var (ohash, s1) :- GetOpaque(s);
    var (path, s2) :- GetOpaque(s1);
    var (ofs, s3) :- GetI64(s2);
    var (len, s4) :- GetI32(s3);
    Got(ChunkEntry(ohash, FileChunk(path, ofs, len)), s4)
  }

  function GetMetaEntry(s: bytes): Read<Entry> {
    var (ohash, s1) :- GetOpaque(s);
    var (name, s2) :- GetOpaque(s1);
    var (len, s3) :- GetI32(s2);
    Got(MetaEntry(ohash, name, len), s3)
  }

  function GetInfoEntry(s: bytes): Read<Entry> {
    var (path, s1) :- GetOpaque(s);
    var (info, s2) :- GetFileInfo(s1);
    Got(InfoEntry(path, info), s2)
  }

  function GetBody(tag: int, s: bytes): Read<Entry> {
    if tag == 1 then GetChunkEntry(s) else if tag == 2 then GetMetaEntry(s)
    else if tag == 3 then GetInfoEntry(s) else Bad
  }

  function GetEntry(s: bytes): Read<Entry> {
    var (tag, s1) :- GetI32(s);
    GetBody(tag, s1)
  }

  lemma GetEntryAs(s: bytes, tag: int, s1: bytes, e: Entry, rest: bytes)
    requires GetI32(s) == Got(tag, s1) && GetBody(tag, s1) == Got(e, rest)
    ensures GetEntry(s) == Got(e, rest)
  {
  }

  lemma ChunkBody(ohash: bytes, fc: FileChunk, rest: bytes)
    requires EntryFits(ChunkEntry(ohash, fc))
    ensures GetChunkEntry(PutOpaque(ohash) + (PutOpaque(fc.path) + (PutI64(fc.ofs) + (PutI32(fc.len) + rest)))) ==
            Got(ChunkEntry(ohash, fc), rest)
  {
    var s3 := PutI32(fc.len) + rest;
    var s2 := PutI64(fc.ofs) + s3;
    var s1 := PutOpaque(fc.path) + s2;
    OpaqueRoundTrip(ohash, s1);
    OpaqueRoundTrip(fc.path, s2);
    I64RoundTrip(fc.ofs, s3);
    I32RoundTrip(fc.len, rest);
  }

  lemma MetaBody(ohash: bytes, name: bytes, len: int, rest: bytes)
    requires EntryFits(MetaEntry(ohash, name, len))
    ensures GetMetaEntry(PutOpaque(ohash) + (PutOpaque(name) + (PutI32(len) + rest))) ==
            Got(MetaEntry(ohash, name, len), rest)
  {
    OpaqueRoundTrip(ohash, PutOpaque(name) + (PutI32(len) + rest));
    OpaqueRoundTrip(name, PutI32(len) + rest);
    I32RoundTrip(len, rest);
  }

  lemma InfoBody(path: bytes, info: FileInfo, b: bytes, rest: bytes)
    requires EntryFits(InfoEntry(path, info)) && IsEncoding(info, b)
    ensures GetInfoEntry(PutOpaque(path) + (b + rest)) == Got(InfoEntry(path, ReadInfo(b)), rest)
  {
    OpaqueRoundTrip(path, b + rest);
    EncodingReads(info, b, rest);
  }

  lemma Assoc3(t: bytes, a: bytes, b: bytes, rest: bytes)
    ensures (t + (a + b)) + rest == t + (a + (b + rest))
  {
  }

  lemma ChunkReads(ohash: bytes, fc: FileChunk, s: bytes, rest: bytes)
    requires EntryFits(ChunkEntry(ohash, fc)) && IsEntry(ChunkEntry(ohash, fc), s)
    ensures GetEntry(s + rest) == Got(ChunkEntry(ohash, fc), rest)
  {
    var b := PutOpaque(fc.path) + (PutI64(fc.ofs) + PutI32(fc.len));
    var s1 := PutOpaque(ohash) + (PutOpaque(fc.path) + (PutI64(fc.ofs) + (PutI32(fc.len) + rest)));
    Assoc3(PutI32(1), PutOpaque(ohash), b, rest);
    Assoc3(PutOpaque(fc.path), PutI64(fc.ofs), PutI32(fc.len), rest);
    I32RoundTrip(1, s1);
    ChunkBody(ohash, fc, rest);
    GetEntryAs(s + rest, 1, s1, ChunkEntry(ohash, fc), rest);
  }

  lemma MetaReads(ohash: bytes, name: bytes, len: int, s: bytes, rest: bytes)
    requires EntryFits(MetaEntry(ohash, name, len)) && IsEntry(MetaEntry(ohash, name, len), s)
    ensures GetEntry(s + rest) == Got(MetaEntry(ohash, name, len), rest)
  {
    var s1 := PutOpaque(ohash) + (PutOpaque(name) + (PutI32(len) + rest));
    Assoc3(PutI32(2), PutOpaque(ohash), PutOpaque(name) + PutI32(len), rest);
    Assoc(PutOpaque(name), PutI32(len), rest);
    I32RoundTrip(2, s1);
    MetaBody(ohash, name, len, rest);
    GetEntryAs(s + rest, 2, s1, MetaEntry(ohash, name, len), rest);
  }

  lemma InfoReads(path: bytes, info: FileInfo, b: bytes, s: bytes, rest: bytes)
    requires EntryFits(InfoEntry(path, info)) && IsEncoding(info, b)
    requires s == PutI32(3) + (PutOpaque(path) + b)
    ensures GetEntry(s + rest) == Got(InfoEntry(path, ReadInfo(b)), rest)
  {
    Assoc3(PutI32(3), PutOpaque(path), b, rest);
    I32RoundTrip(3, PutOpaque(path) + (b + rest));
    InfoBody(path, info, b, rest);
    GetEntryAs(s + rest, 3, PutOpaque(path) + (b + rest), InfoEntry(path, ReadInfo(b)), rest);
  }

  const NO_ENTRY := MetaEntry([], [], 0)

  /** What a reader makes of a written record. */
  function ReadEntry(s: bytes): Entry {
    match GetEntry(s)
    case Bad => NO_ENTRY
    case Got(e, _) => e
  }

  /** `r` is `e`, except that a file info beyond the limits has lost attributes. */
  ghost predicate EntryReadsAs(e: Entry, r: Entry) {
    if e.InfoEntry? then r.InfoEntry? && r.path == e.path && ReadsAs(e.info, r.info) else r == e
  }

  /** Every record is read back, whatever follows it: unchanged, unless it is a file info beyond
      the limits on attributes. */
  lemma EntryRoundTrip(e: Entry, s: bytes, rest: bytes)
    requires EntryFits(e) && IsEntry(e, s)
    ensures GetEntry(s + rest) == Got(ReadEntry(s), rest) && |s| >= TAG_SIZE
    ensures EntryReadsAs(e, ReadEntry(s))
  {
    Nothing(s);
    match e {
      case ChunkEntry(ohash, fc) =>
        ChunkReads(ohash, fc, s, rest);
        ChunkReads(ohash, fc, s, []);
      case MetaEntry(ohash, name, len) =>
        MetaReads(ohash, name, len, s, rest);
        MetaReads(ohash, name, len, s, []);
      case InfoEntry(path, info) =>
        var b :| IsEncoding(info, b) && s == PutI32(3) + (PutOpaque(path) + b);
        InfoReads(path, info, b, s, rest);
        InfoReads(path, info, b, s, []);
        EncodingReads(info, b, []);
    }
  }

  // ----- the whole log -----

  function Apply(t: Tables, e: Entry, disk: Disk): Tables {
    match e
    case ChunkEntry(ohash, fc) => t.(files := t.files[ohash := Locations(t, ohash) + {fc}])
    case MetaEntry(ohash, name, len) => if disk(name, len) then t.(metas := t.metas[ohash := name]) else t
    case InfoEntry(path, info) => t.(infos := t.infos[path := info])
  }

  function ApplyAll(t: Tables, es: seq<Entry>, disk: Disk): Tables {
    if es == [] then t else Apply(ApplyAll(t, es[..|es| - 1], disk), es[|es| - 1], disk)
  }

  ghost predicate AllGood(es: seq<Entry>) { forall i :: 0 <= i < |es| ==> Good(es[i]) }

  type Decoder = bytes -> Read<Entry>

  /** The bytes of the tag a record begins with. */
  const TAG_SIZE: nat := 4

  /** The replay loop: up to `n` records of the log from some point on; `None` stands for a
      corrupt log. Bytes that are too few for a tag end the replay like the end of the file does.
      A log of `n` bytes has no more than `n` records. */
  function Replay(dec: Decoder, s: bytes, t: Tables, disk: Disk, n: nat): Option<Tables>
    decreases n
  {
    if |s| < TAG_SIZE then Some(t)
    else if n == 0 then None
    else match dec(s)
      case Bad => None
      case Got(e, rest) => if Good(e) then Replay(dec, rest, Apply(t, e, disk), disk, n - 1) else None
  }

  lemma ReplayNext(dec: Decoder, s: bytes, t: Tables, disk: Disk, n: nat, r: Read<Entry>)
    requires |s| >= TAG_SIZE && n > 0 && r == dec(s)
    ensures Replay(dec, s, t, disk, n) ==
            if r.Got? && Good(r.value) then Replay(dec, r.rest, Apply(t, r.value, disk), disk, n - 1) else None
  {
  }

  /** Every record takes bytes. */
  ghost predicate Shrinks(dec: Decoder) { forall s :: dec(s).Got? ==> |dec(s).rest| < |s| }

  // ----- a written log -----

  /** A record and the bytes written for it. */
  datatype Written = Written(e: Entry, s: bytes)

  ghost predicate WrittenOk(w: Written) { EntryFits(w.e) && IsEntry(w.e, w.s) }

  ghost predicate LogOk(ws: seq<Written>) { forall i :: 0 <= i < |ws| ==> WrittenOk(ws[i]) }

  function Body(ws: seq<Written>): bytes {
    if ws == [] then [] else Body(ws[..|ws| - 1]) + ws[|ws| - 1].s
  }

  /** The records as they were written, and as they are read. */
  function Entries(ws: seq<Written>): (es: seq<Entry>)
    ensures |es| == |ws|
  {
    if ws == [] then [] else Entries(ws[..|ws| - 1]) + [ws[|ws| - 1].e]
  }

  function AsRead(ws: seq<Written>): (es: seq<Entry>)
    ensures |es| == |ws|
  {
    if ws == [] then [] else AsRead(ws[..|ws| - 1]) + [ReadEntry(ws[|ws| - 1].s)]
  }

  /** The decoder reads a written record, whatever follows it. */
  ghost predicate ReadsBack(dec: Decoder) {
    forall w: Written, rest {:trigger WrittenOk(w), dec(w.s + rest)} ::
      WrittenOk(w) ==> dec(w.s + rest) == Got(ReadEntry(w.s), rest)
  }

  lemma GetEntryReadsBack()
    ensures ReadsBack(GetEntry)
  {
    forall w: Written, rest | WrittenOk(w) ensures GetEntry(w.s + rest) == Got(ReadEntry(w.s), rest) {
      EntryRoundTrip(w.e, w.s, rest);
    }
  }

  lemma ApplyLast(t: Tables, es: seq<Entry>, e: Entry, disk: Disk)
    ensures ApplyAll(t, es + [e], disk) == Apply(ApplyAll(t, es, disk), e, disk)
  {
    assert (es + [e])[..|es|] == es;
  }

  lemma GoodLast(es: seq<Entry>, e: Entry)
    ensures AllGood(es + [e]) <==> AllGood(es) && Good(e)
  {
    if AllGood(es + [e]) {
      forall i | 0 <= i < |es| ensures Good(es[i]) { assert es[i] == (es + [e])[i]; }
      assert e == (es + [e])[|es|];
    }
  }

  /** The last record of a log. */
  lemma ReplayLast(dec: Decoder, w: Written, rest: bytes, t: Tables, disk: Disk, m: nat)
    requires ReadsBack(dec) && WrittenOk(w) && |w.s| >= TAG_SIZE
    ensures Replay(dec, w.s + rest, t, disk, m + 1) ==
            if Good(ReadEntry(w.s)) then Replay(dec, rest, Apply(t, ReadEntry(w.s), disk), disk, m) else None
  {
    assert dec(w.s + rest) == Got(ReadEntry(w.s), rest);
  }

  /** Replaying a log does what its records say as they are read, and fails exactly if one of them
      is one the replay refuses. */
  lemma {:induction false} ReplayPrefix(dec: Decoder, ws: seq<Written>, rest: bytes, t: Tables, disk: Disk,
                                        n: nat, m: nat)
    requires ReadsBack(dec) && LogOk(ws) && n == m + |ws|
    ensures Replay(dec, Body(ws) + rest, t, disk, n) ==
            if AllGood(AsRead(ws)) then Replay(dec, rest, ApplyAll(t, AsRead(ws), disk), disk, m) else None
    decreases |ws|
  {
    if ws == [] {
      Nothing(rest);
    } else {
      var a, w := SplitLog(ws);
      EntryRoundTrip(w.e, w.s, []);
      Assoc(Body(a), w.s, rest);
      ReplayPrefix(dec, a, w.s + rest, t, disk, n, m + 1);
      ReplayLast(dec, w, rest, ApplyAll(t, AsRead(a), disk), disk, m);
      GoodLast(AsRead(a), ReadEntry(w.s));
      ApplyLast(t, AsRead(a), ReadEntry(w.s), disk);
    }
  }

  lemma Last<T>(s: seq<T>) returns (a: seq<T>, x: T)
    requires s != []
    ensures a == s[..|s| - 1] && x == s[|s| - 1] && s == a + [x]
  {
    a, x := s[..|s| - 1], s[|s| - 1];
  }

  lemma AsReadLast(ws: seq<Written>, a: seq<Written>, w: Written, r: Entry)
    requires ws != [] && a == ws[..|ws| - 1] && w == ws[|ws| - 1] && r == ReadEntry(w.s)
    ensures AsRead(ws) == AsRead(a) + [r]
  {
  }

  lemma BodyLast(ws: seq<Written>, a: seq<Written>, w: Written)
    requires ws != [] && a == ws[..|ws| - 1] && w == ws[|ws| - 1]
    ensures Body(ws) == Body(a) + w.s && Entries(ws) == Entries(a) + [w.e]
  {
  }

  lemma SplitOk(a: seq<Written>, w: Written)
    requires LogOk(a + [w])
    ensures LogOk(a) && WrittenOk(w)
  {
    forall i | 0 <= i < |a| ensures WrittenOk(a[i]) { assert a[i] == (a + [w])[i]; }
    assert w == (a + [w])[|a|];
  }

  /** A log without its last record. */
  lemma SplitLog(ws: seq<Written>) returns (a: seq<Written>, w: Written)
    requires LogOk(ws) && ws != []
    ensures a == ws[..|ws| - 1] && w == ws[|ws| - 1] && ws == a + [w] && LogOk(a) && WrittenOk(w)
    ensures Body(ws) == Body(a) + w.s && AsRead(ws) == AsRead(a) + [ReadEntry(w.s)]
    ensures Entries(ws) == Entries(a) + [w.e]
  {
    a, w := Last(ws);
    SplitOk(a, w);
    BodyLast(ws, a, w);
    AsReadLast(ws, a, w, ReadEntry(w.s));
  }

  lemma LogSnoc(ws: seq<Written>, w: Written)
    requires LogOk(ws) && WrittenOk(w)
    ensures LogOk(ws + [w]) && Body(ws + [w]) == Body(ws) + w.s && Entries(ws + [w]) == Entries(ws) + [w.e]
  {
    assert (ws + [w])[..|ws|] == ws;
  }

  lemma {:induction false} RecordsNotEmpty(ws: seq<Written>)
    requires LogOk(ws)
    ensures |ws| <= |Body(ws)|
    decreases |ws|
  {
    if ws != [] {
      var a, w := SplitLog(ws);
      RecordsNotEmpty(a);
      EntryRoundTrip(w.e, w.s, []);
    }
  }

  /** Reading does not change whether the replay accepts a record. */
  lemma {:induction false} GoodAsRead(ws: seq<Written>)
    requires LogOk(ws)
    ensures AllGood(AsRead(ws)) <==> AllGood(Entries(ws))
    decreases |ws|
  {
    if ws != [] {
      var a, w := SplitLog(ws);
      GoodAsRead(a);
      EntryRoundTrip(w.e, w.s, []);
      GoodLast(AsRead(a), ReadEntry(w.s));
      GoodLast(Entries(a), w.e);
    }
  }

  function ReplayAll(s: bytes, disk: Disk): Option<Tables> { Replay(GetEntry, s, NO_TABLES, disk, |s|) }

  /** A log can be replayed exactly if every record in it passes the checks, and then gives the
      tables its records describe as they are read. One to three bytes behind the last record make
      no difference. */
  lemma ReplayIff(ws: seq<Written>, junk: bytes, disk: Disk)
    requires LogOk(ws) && |junk| < TAG_SIZE
    ensures ReplayAll(Body(ws) + junk, disk) ==
            if AllGood(Entries(ws)) then Some(ApplyAll(NO_TABLES, AsRead(ws), disk)) else None
  {
    var n := |Body(ws) + junk|;
    RecordsNotEmpty(ws);
    GetEntryReadsBack();
    ReplayPrefix(GetEntry, ws, junk, NO_TABLES, disk, n, n - |ws|);
    GoodAsRead(ws);
  }

  lemma ReplayLog(ws: seq<Written>, disk: Disk)
    requires LogOk(ws)
    ensures ReplayAll(Body(ws), disk) ==
            if AllGood(Entries(ws)) then Some(ApplyAll(NO_TABLES, AsRead(ws), disk)) else None
  {
    ReplayIff(ws, [], disk);
    Nothing(Body(ws));
  }

  // ----- records behind stray bytes -----

  lemma {:induction false} ZeroDigits(n: nat, i: nat)
    requires i < n
    ensures Digits(0, n)[i] == 0
  {
    if i < n - 1 {
      ZeroDigits(n - 1, i);
    }
  }

  lemma SmallTag(k: nat, i: nat)
    requires k < 0x100 && i < 3
    ensures PutI32(k)[i] == 0
  {
    WrapRoundTrip(k, TWO32);
    assert Digits(k, 4) == Digits(0, 3) + [k];
    ZeroDigits(3, i);
  }

  lemma FourBytes(s: bytes)
    requires |s| >= 4 && s[3] == 0
    ensures GetI32(s).Got? && GetI32(s).value != 1 && GetI32(s).value != 2 && GetI32(s).value != 3
  {
    var v := s[..4];
    assert v[..3] == s[..3];
    assert Value(v) == Value(s[..3]) * 0x100;
  }

  lemma EntryTag(e: Entry, s: bytes) returns (k: nat)
    requires EntryFits(e) && IsEntry(e, s)
    ensures 1 <= k <= 3 && |s| >= 4 && s[..4] == PutI32(k)
  {
    k := if e.ChunkEntry? then 1 else if e.MetaEntry? then 2 else 3;
    if e.InfoEntry? {
      var b :| IsEncoding(e.info, b) && s == PutI32(3) + (PutOpaque(e.path) + b);
    }
  }

  lemma FourthByte(s: bytes, tag: bytes, junk: bytes)
    requires |s| >= |tag| == 4 && s[..4] == tag && 0 < |junk| < 4
    ensures |junk + s| >= 4 && (junk + s)[3] == tag[3 - |junk|]
  {
    assert (junk + s)[3] == s[3 - |junk|] == s[..4][3 - |junk|];
  }

  lemma UnknownTag(s: bytes, tag: int, rest: bytes)
    requires GetI32(s) == Got(tag, rest) && tag != 1 && tag != 2 && tag != 3
    ensures GetEntry(s).Bad?
  {
  }

  /** No record can be read behind one to three stray bytes: its tag is never one of the three. */
  lemma NotBehindJunk(e: Entry, s: bytes, junk: bytes)
    requires EntryFits(e) && IsEntry(e, s) && 0 < |junk| < TAG_SIZE
    ensures GetEntry(junk + s).Bad? && |junk + s| >= TAG_SIZE
  {
    var k := EntryTag(e, s);
    SmallTag(k, 3 - |junk|);
    FourthByte(s, PutI32(k), junk);
    FourBytes(junk + s);
    UnknownTag(junk + s, GetI32(junk + s).value, GetI32(junk + s).rest);
  }

  /** So a log with such bytes at its end is accepted, and the first record appended to it makes
      it corrupt, whatever the bytes and the record. */
  lemma AppendBehindJunk(ws: seq<Written>, junk: bytes, w: Written, disk: Disk)
    requires LogOk(ws) && WrittenOk(w) && 0 < |junk| < TAG_SIZE
    ensures ReplayAll((Body(ws) + junk) + w.s, disk).None?
  {
    var n := |(Body(ws) + junk) + w.s|;
    RecordsNotEmpty(ws);
    GetEntryReadsBack();
    NotBehindJunk(w.e, w.s, junk);
    Assoc(Body(ws), junk, w.s);
    ReplayPrefix(GetEntry, ws, junk + w.s, NO_TABLES, disk, n, n - |ws|);
    ReplayNext(GetEntry, junk + w.s, ApplyAll(NO_TABLES, AsRead(ws), disk), disk, n - |ws|, GetEntry(junk + w.s));
  }

  // ----- what reading changes -----

  /** The same tables, except that file infos beyond the limits have lost attributes. */
  ghost predicate SameButLost(t: Tables, r: Tables) {
    r.metas == t.metas && r.files == t.files && r.infos.Keys == t.infos.Keys &&
    forall p :: p in t.infos ==> (r.infos[p] == t.infos[p] <==> WithinLimits(t.infos[p]))
  }

  lemma ApplyLost(t: Tables, r: Tables, e: Entry, f: Entry, disk: Disk)
    requires SameButLost(t, r) && EntryReadsAs(e, f)
    ensures SameButLost(Apply(t, e, disk), Apply(r, f, disk))
  {
  }

  lemma {:induction false} ReadTables(ws: seq<Written>, disk: Disk)
    requires LogOk(ws)
    ensures SameButLost(ApplyAll(NO_TABLES, Entries(ws), disk), ApplyAll(NO_TABLES, AsRead(ws), disk))
    decreases |ws|
  {
    if ws != [] {
      var a, w := SplitLog(ws);
      ReadTables(a, disk);
      EntryRoundTrip(w.e, w.s, []);
      ApplyLast(NO_TABLES, Entries(a), w.e, disk);
      ApplyLast(NO_TABLES, AsRead(a), ReadEntry(w.s), disk);
      ApplyLost(ApplyAll(NO_TABLES, Entries(a), disk), ApplyAll(NO_TABLES, AsRead(a), disk), w.e, ReadEntry(w.s), disk);
    }
  }

  /** The replay of a log restores the file infos written last exactly if none of them is beyond
      the limits; chunk locations and metadata chunks it always restores. */
  lemma RestoredIff(ws: seq<Written>, disk: Disk)
    requires LogOk(ws) && AllGood(Entries(ws))
    ensures ReplayAll(Body(ws), disk).Some?
    ensures var t, r := ApplyAll(NO_TABLES, Entries(ws), disk), ReplayAll(Body(ws), disk).value;
            r.metas == t.metas && r.files == t.files && r.infos.Keys == t.infos.Keys &&
            (r.infos == t.infos <==> forall p :: p in t.infos ==> WithinLimits(t.infos[p]))
  {
    ReplayLog(ws, disk);
    ReadTables(ws, disk);
    var t, r := ApplyAll(NO_TABLES, Entries(ws), disk), ReplayAll(Body(ws), disk).value;
    if forall p :: p in t.infos ==> WithinLimits(t.infos[p]) {
      SameMaps(r.infos, t.infos);
    }
  }

  /** It happens: a file info with one attribute a byte too long. The log replays, and the record
      comes back without the attribute. */
  lemma InfoCanBeLost(path: bytes, t: int, x: Attr, b: bytes, s: bytes, disk: Disk)
    requires path != [] && |path| < TWO32 && t != NULL_TYPE
    requires IsEncoding(FileInfo(t, map[x := Zeros(MAX_ATTR_SIZE + 1)]), b)
    requires s == PutI32(3) + (PutOpaque(path) + b)
    ensures var f := FileInfo(t, map[x := Zeros(MAX_ATTR_SIZE + 1)]);
            LogOk([Written(InfoEntry(path, f), s)]) &&
            ReplayAll(s, disk) == Some(NO_TABLES.(infos := map[path := FileInfo(t, map[])]))
  {
    var f := FileInfo(t, map[x := Zeros(MAX_ATTR_SIZE + 1)]);
    var ws := [Written(InfoEntry(path, f), s)];
    assert ws[..0] == [] && Body(ws) == [] + s;
    Nothing(s);
    InfoReads(path, f, b, s, []);
    TooLongIsLost(t, x, b);
    assert AsRead(ws) == [] + [InfoEntry(path, FileInfo(t, map[]))];
    assert Entries(ws) == [] + [InfoEntry(path, f)];
    GoodLast([], InfoEntry(path, f));
    ApplyLast(NO_TABLES, [], InfoEntry(path, FileInfo(t, map[])), disk);
    ReplayLog(ws, disk);
  }

  // ----- metadata chunks whose file may be gone -----

  /** The length in the last record of a metadata chunk. */
  function LastLen(es: seq<Entry>, h: bytes): int {
    if es == [] then 0 else
      var e := es[|es| - 1];
      if e.MetaEntry? && e.ohash == h then e.len else LastLen(es[..|es| - 1], h)
  }

  /** A metadata chunk whose file is there with the recorded length is found by any replay. */
  lemma {:induction false} MetaOnDisk(es: seq<Entry>, disk: Disk, h: bytes)
    requires h in ApplyAll(NO_TABLES, es, PRESENT).metas
    requires disk(ApplyAll(NO_TABLES, es, PRESENT).metas[h], LastLen(es, h))
    ensures h in ApplyAll(NO_TABLES, es, disk).metas
    ensures ApplyAll(NO_TABLES, es, disk).metas[h] == ApplyAll(NO_TABLES, es, PRESENT).metas[h]
  {
    if es != [] {
      var e := es[|es| - 1];
      if !(e.MetaEntry? && e.ohash == h) {
        MetaOnDisk(es[..|es| - 1], disk, h);
      }
    }
  }

  // ----- unchanged records -----

  function AttrOf(f: FileInfo, tag: Attr): bytes { if tag in f.at then f.at[tag] else [] }

  /** The comparison `addFileInfo` uses to leave a record unwritten. */
  predicate SameInfo(a: FileInfo, b: FileInfo) {
    a.t == b.t && |a.at| == |b.at| && forall tag :: tag in a.at ==> AttrOf(a, tag) == AttrOf(b, tag)
  }

  lemma SameInfoIsEqual(a: FileInfo, b: FileInfo)
    requires forall tag :: tag in a.at ==> a.at[tag] != []
    ensures SameInfo(a, b) <==> a == b
  {
    if SameInfo(a, b) {
      forall tag | tag in a.at ensures tag in b.at && b.at[tag] == a.at[tag] {
        assert AttrOf(a, tag) == AttrOf(b, tag);
      }
      EqualSize(a.at.Keys, b.at.Keys);
      SameMaps(a.at, b.at);
    }
  }

  /** A bound on the tag codes in a table. */
  ghost function Above(tags: set<Attr>): (n: int)
    ensures forall x :: x in tags ==> x.code < n
  {
    if tags == {} then 0 else
      var x :| x in tags;
      var n := Above(tags - {x});
      if x.code < n then n else x.code + 1
  }

  /** The record with the empty attribute `x` replaced by another one. */
  lemma OtherSameInfo(a: FileInfo, x: Attr) returns (b: FileInfo)
    requires x in a.at && a.at[x] == []
    ensures SameInfo(a, b) && a != b
  {
    var y := Attr(Above(a.at.Keys));
    b := FileInfo(a.t, (a.at - {x})[y := [1]]);
    assert y !in a.at.Keys && y != x;
    assert b.at.Keys == (a.at.Keys - {x}) + {y};
  }

  /** The comparison is equality for a known record exactly if the record has no empty attribute. */
  lemma SameInfoIsEqualityIff(a: FileInfo)
    ensures (forall b :: SameInfo(a, b) <==> a == b) <==> (forall tag :: tag in a.at ==> a.at[tag] != [])
  {
    if forall tag :: tag in a.at ==> a.at[tag] != [] {
      forall b ensures SameInfo(a, b) <==> a == b {
        SameInfoIsEqual(a, b);
      }
    } else {
      var x :| x in a.at && a.at[x] == [];
      var b := OtherSameInfo(a, x);
    }
  }

  lemma EqualSize(a: set<Attr>, b: set<Attr>)
    requires a <= b && |a| == |b|
    ensures a == b
  {
    assert b == a + (b - a) && |b| == |a| + |b - a|;
    assert b - a == {};
  }

  /** With an empty attribute it can take different records for the same. */
  lemma SameInfoCanLie(t: int, x: Attr, y: Attr, v: bytes)
    requires x != y && v != []
    ensures var a, b := FileInfo(t, map[x := []]), FileInfo(t, map[y := v]);
            SameInfo(a, b) && a != b
  {
    var a: map<Attr, bytes>, b: map<Attr, bytes> := map[x := []], map[y := v];
    assert |a| == 1 && |b| == 1;
    assert x !in b && x in a;
  }
}
