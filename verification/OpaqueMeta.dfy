/** Keys and top-level metadata of an opaque stream, and their external representation. */
module OpaqueMeta {
  import opened Bytes
  import opened Xdr

  type InnerKey = k: bytes | |k| == 32 witness Zeros(32)
  type OuterHash = h: bytes | |h| == 64 witness Zeros(64)

  /** The hash functions and the stream cipher, as parameters: nothing is assumed of the
      hashes, and of the cipher only that applying it twice gives the data back. */
  datatype Ciphers = Ciphers(
    sha256: bytes -> InnerKey,
    sha512: bytes -> OuterHash,
    ctr: (InnerKey, bytes) -> bytes,
    check: OuterHash -> u64)

  ghost predicate SelfInverse(c: Ciphers) {
    forall k, d {:trigger c.ctr(k, d)} :: |c.ctr(k, d)| == |d| && c.ctr(k, c.ctr(k, d)) == d
  }

  type Crypto = c: Ciphers | SelfInverse(c)
    ghost witness Ciphers(_ => Zeros(32), _ => Zeros(64), (k, d) => d, h => 0)

  // ----- keys -----

  const KEY_SIZE: nat := 128

  datatype OpaqueKey = OpaqueKey(
    level: int,       // 0: the key points at stream data
    osize: int,       // size of the chunk the key points at
    isize: int,       // size of the stream the key stands for
    irecs: int,       // number of records that start in it
    isum: u32,        // Adler-32 of that stream
    key: InnerKey,
    ohash: OuterHash)

  /** The sanity checks made on every decoded key. */
  predicate Sane(k: OpaqueKey) {
    0 <= k.level && 0 < k.osize && 0 < k.isize && 0 <= k.irecs <= k.isize
  }

  /** The fields fit the widths they are stored in. */
  predicate Fits(k: OpaqueKey) {
    IsI32(k.level) && IsI32(k.osize) && IsI64(k.isize) && IsI64(k.irecs)
  }

  /** Level and outer size, internal size and records, checksum and a reserved word. */
  const KEY_WORDS: seq<nat> := [4, 4, 8, 8, 4, 4]

  function KeyWords(k: OpaqueKey): seq<nat> {
    [Wrap(k.level, TWO32), Wrap(k.osize, TWO32), Wrap(k.isize, TWO64), Wrap(k.irecs, TWO64), k.isum, 0]
  }

  lemma KeyWordsSize()
    ensures Sum(KEY_WORDS) == 32
  {
    var a, b := [8, 8, 4, 4], [4, 4];
    assert KEY_WORDS[1..][1..] == a && a[1..][1..] == b && b[1..][1..] == [];
    assert Sum(b) == 8 && Sum(a) == 24;
  }

  function PutKey(k: OpaqueKey): (s: bytes)
    ensures |s| == KEY_SIZE
  {
    KeyWordsSize();
    PutWords(KeyWords(k), KEY_WORDS) + (k.key + k.ohash)
  }

  function KeyFrom(ws: seq<nat>, key: InnerKey, ohash: OuterHash): OpaqueKey
    requires |ws| == |KEY_WORDS| && ws[4] < TWO32
  {
    OpaqueKey(Unwrap(ws[0], TWO32), Unwrap(ws[1], TWO32), Unwrap(ws[2], TWO64), Unwrap(ws[3], TWO64),
              ws[4], key, ohash)
  }

  function GetKey(s: bytes): Read<OpaqueKey> {
    var (ws, s1) :- GetWords(s, KEY_WORDS);
    var (key, s2) :- GetRaw(s1, 32);
    var (ohash, s3) :- GetRaw(s2, 64);
    WordSizes();
    var k := KeyFrom(ws, key, ohash);
    if Sane(k) then Got(k, s3) else Bad
  }

  lemma KeyWordsRoundTrip(k: OpaqueKey)
    requires Fits(k)
    ensures forall i :: 0 <= i < |KEY_WORDS| ==> KeyWords(k)[i] < Pow256(KEY_WORDS[i])
    ensures KeyFrom(KeyWords(k), k.key, k.ohash) == k
  {
    WordSizes();
    WrapRoundTrip(k.level, TWO32);
    WrapRoundTrip(k.osize, TWO32);
    WrapRoundTrip(k.isize, TWO64);
    WrapRoundTrip(k.irecs, TWO64);
  }

  /** A key survives encoding exactly when it passes the sanity checks. */
  lemma KeyRoundTrip(k: OpaqueKey, rest: bytes)
    requires Fits(k)
    ensures GetKey(PutKey(k) + rest) == if Sane(k) then Got(k, rest) else Bad
  {
    var ws := PutWords(KeyWords(k), KEY_WORDS);
    assert PutKey(k) + rest == ws + (k.key + (k.ohash + rest));
    KeyWordsRoundTrip(k);
    WordsRoundTrip(KeyWords(k), KEY_WORDS, k.key + (k.ohash + rest));
    RawRoundTrip(k.key, k.ohash + rest);
    RawRoundTrip(k.ohash, rest);
  }

  predicate AllFit(ks: seq<OpaqueKey>) { forall i :: 0 <= i < |ks| ==> Fits(ks[i]) }
  predicate AllSane(ks: seq<OpaqueKey>) { forall i :: 0 <= i < |ks| ==> Sane(ks[i]) }

  function PutKeys(ks: seq<OpaqueKey>): (s: bytes)
    ensures |s| == KEY_SIZE * |ks|
  {
    if ks == [] then [] else PutKey(ks[0]) + PutKeys(ks[1..])
  }

  function GetKeys(s: bytes, n: nat): Read<seq<OpaqueKey>>
    decreases n
  {
    if n == 0 then Got([], s) else
      var (k, s1) :- GetKey(s);
      var (ks, s2) :- GetKeys(s1, n - 1);
      Got([k] + ks, s2)
  }

  lemma GetKeysStep(s: bytes, n: nat, k: OpaqueKey, s1: bytes, ks: seq<OpaqueKey>, s2: bytes)
    requires n > 0 && GetKey(s) == Got(k, s1) && GetKeys(s1, n - 1) == Got(ks, s2)
    ensures GetKeys(s, n) == Got([k] + ks, s2)
  {
  }

  lemma {:induction false} KeysRoundTrip(ks: seq<OpaqueKey>, rest: bytes)
    requires AllFit(ks) && AllSane(ks)
    ensures GetKeys(PutKeys(ks) + rest, |ks|) == Got(ks, rest)
  {
    if ks == [] {
      assert PutKeys(ks) + rest == rest;
    } else {
      var tail := PutKeys(ks[1..]) + rest;
      KeyRoundTrip(ks[0], tail);
      KeysRoundTrip(ks[1..], rest);
      Assoc(PutKey(ks[0]), PutKeys(ks[1..]), rest);
      GetKeysStep(PutKeys(ks) + rest, |ks|, ks[0], tail, ks[1..], rest);
      assert [ks[0]] + ks[1..] == ks;
    }
  }

  // ----- top-level metadata -----

  datatype OpaqueInfo =
    | Null
    | Inline1(dat: bytes)
    | InlineRecs(nrecs: int, dat: bytes)
    | Indirect(kl: seq<OpaqueKey>)

  function Direct(dat: bytes, nrecs: nat): OpaqueInfo
    requires 0 < nrecs <= |dat|
  {
    if nrecs == 1 then Inline1(dat) else InlineRecs(nrecs, dat)
  }

  function SumSizes(ks: seq<OpaqueKey>): int {
    if ks == [] then 0 else ks[0].isize + SumSizes(ks[1..])
  }

  function SumRecs(ks: seq<OpaqueKey>): int {
    if ks == [] then 0 else ks[0].irecs + SumRecs(ks[1..])
  }

  function InternalSize(i: OpaqueInfo): int {
    match i
    case Null => 0
    case Inline1(dat) => |dat|
    case InlineRecs(_, dat) => |dat|
    case Indirect(kl) => SumSizes(kl)
  }

  function InternalRecords(i: OpaqueInfo): int {
    match i
    case Null => 0
    case Inline1(_) => 1
    case InlineRecs(nrecs, _) => nrecs
    case Indirect(kl) => SumRecs(kl)
  }

  function DirectSize(dataSize: nat, nrecords: nat): nat {
    4 + 4 + (if nrecords > 1 then 4 else 0) + (dataSize + 3) / 4 * 4
  }

  function IndirectSize(nkeys: nat): nat { 4 + 4 + KEY_SIZE * nkeys }

  /** What the coder can produce: non-empty, and within the stored widths. */
  predicate Storable(i: OpaqueInfo) {
    match i
    case Null => false
    case Inline1(dat) => 0 < |dat| < TWO31
    case InlineRecs(nrecs, dat) => 1 < nrecs <= |dat| < TWO31
    case Indirect(kl) => 0 < |kl| < TWO31 && AllFit(kl) && AllSane(kl)
  }

  function PutInfo(i: OpaqueInfo): bytes
    requires Storable(i)
  {
    match i
    case Inline1(dat) => PutU32(1) + PutOpaque(dat)
    case InlineRecs(nrecs, dat) => PutU32(2) + (PutU32(nrecs) + PutOpaque(dat))
    case Indirect(kl) => PutU32(3) + (PutI32(|kl|) + PutKeys(kl))
  }

  function GetInline(s: bytes, byRecs: bool, nrecs: int): OpaqueInfo {
    match GetOpaque(s)
    case Bad => Null
    case Got(dat, _) =>
      if nrecs <= 0 || nrecs > |dat| then Null
      else if byRecs then InlineRecs(nrecs, dat) else Inline1(dat)
  }

  /** `OpaqueInfo::decode`: the null info stands for every error. */
  function GetInfo(s: bytes): OpaqueInfo {
    match GetI32(s)
    case Bad => Null
    case Got(t, s1) =>
      if t == 1 then GetInline(s1, false, 1)
      else if t == 2 then
        match GetI32(s1)
        case Bad => Null
        case Got(nrecs, s2) => GetInline(s2, true, nrecs)
      else if t == 3 then
        match GetI32(s1)
        case Bad => Null
        case Got(nkeys, s2) =>
          if nkeys <= 0 then Null else
            match GetKeys(s2, nkeys)
            case Bad => Null
            case Got(kl, _) => Indirect(kl)
      else Null
  }

  lemma GetSmallI32(x: int, rest: bytes)
    requires 0 <= x < TWO31
    ensures GetI32(PutU32(x) + rest) == Got(x, rest)
  {
    WrapRoundTrip(x, TWO32);
    I32RoundTrip(x, rest);
  }

  lemma InlineRoundTrip(dat: bytes, byRecs: bool, nrecs: int)
    requires 0 < nrecs <= |dat| < TWO31
    ensures GetInline(PutOpaque(dat), byRecs, nrecs) ==
            if byRecs then InlineRecs(nrecs, dat) else Inline1(dat)
  {
    assert PutOpaque(dat) + [] == PutOpaque(dat);
    OpaqueRoundTrip(dat, []);
  }

  /** Everything the coder can return decodes to itself. */
  lemma InfoRoundTrip(i: OpaqueInfo)
    requires Storable(i)
    ensures GetInfo(PutInfo(i)) == i
  {
    match i {
      case Inline1(dat) =>
        GetSmallI32(1, PutOpaque(dat));
        InlineRoundTrip(dat, false, 1);
      case InlineRecs(nrecs, dat) =>
        GetSmallI32(2, PutU32(nrecs) + PutOpaque(dat));
        GetSmallI32(nrecs, PutOpaque(dat));
        InlineRoundTrip(dat, true, nrecs);
      case Indirect(kl) =>
        GetSmallI32(3, PutI32(|kl|) + PutKeys(kl));
        I32RoundTrip(|kl|, PutKeys(kl));
        KeysRoundTrip(kl, []);
        assert PutKeys(kl) + [] == PutKeys(kl);
    }
  }

  /** The size formulas used against the metadata limit are the encoded lengths. */
  lemma InfoLength(i: OpaqueInfo)
    requires Storable(i)
    ensures |PutInfo(i)| == if i.Indirect? then IndirectSize(|i.kl|)
                            else DirectSize(|i.dat|, InternalRecords(i))
  {
    if !i.Indirect? {
      PaddedLength(|i.dat|);
    }
  }

  lemma PaddedLength(n: nat)
    ensures n + Padding(n) == (n + 3) / 4 * 4
  {
  }
}
