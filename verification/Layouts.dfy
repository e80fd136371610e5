/** The external formats, field by field and byte by byte. */
module Layouts {
  import opened Bytes
  import opened Xdr
  import opened OpaqueMeta
  import opened FileMeta
  import Ix = IndexLog
  import Arch = ArchiveLog

  // ----- words -----

  /** Words are stored with the most significant byte first. */
  lemma WordBytes(x: u32)
    ensures PutU32(x) == [x / 0x100_0000, x / 0x1_0000 % 0x100, x / 0x100 % 0x100, x % 0x100]
  {
    assert x / 0x100 / 0x100 == x / 0x1_0000 && x / 0x1_0000 / 0x100 == x / 0x100_0000;
    assert Digits(x / 0x100_0000, 1) == [x / 0x100_0000 % 0x100];
    assert Digits(x / 0x1_0000, 2) == Digits(x / 0x100_0000, 1) + [x / 0x1_0000 % 0x100];
    assert Digits(x / 0x100, 3) == Digits(x / 0x1_0000, 2) + [x / 0x100 % 0x100];
  }

  lemma ThreeParts(a: bytes, b: bytes, c: bytes)
    ensures (a + b + c)[..|a|] == a && (a + b + c)[|a|..|a| + |b|] == b
    ensures forall i :: |a| + |b| <= i < |a| + |b| + |c| ==> (a + b + c)[i] == c[i - |a| - |b|]
  {
  }

  lemma Padded(n: nat)
    ensures (4 + n + Padding(n)) % 4 == 0 && Padding(n) < 4
  {
  }

  lemma LengthAndZeros(d: bytes, p: nat, s: bytes)
    requires |d| < TWO32 && s == PutU32(|d|) + d + Zeros(p)
    ensures |s| == 4 + |d| + p && s[..4] == PutU32(|d|) && s[4..4 + |d|] == d
    ensures forall i :: 4 + |d| <= i < |s| ==> s[i] == 0
  {
    ThreeParts(PutU32(|d|), d, Zeros(p));
  }

  /** Data of variable length: its length, the bytes, and zeros up to a multiple of four. */
  lemma OpaqueLayout(d: bytes)
    requires |d| < TWO32
    ensures var s := PutOpaque(d);
            s[..4] == PutU32(|d|) && s[4..4 + |d|] == d && |s| % 4 == 0 && |s| < 8 + |d| &&
            forall i :: 4 + |d| <= i < |s| ==> s[i] == 0
  {
    var s, n, p := PutOpaque(d), |d|, Padding(|d|);
    LengthAndZeros(d, p, s);
    Padded(n);
  }

  lemma {:induction false} SameValue(s: bytes, t: bytes)
    requires |s| == |t| && Value(s) == Value(t)
    ensures s == t
  {
    if s != [] {
      var n := |s| - 1;
      SameValue(s[..n], t[..n]);
      assert s == s[..n] + [s[n]] && t == t[..n] + [t[n]];
    }
  }

  lemma OnlyI64(s: bytes, x: int)
    requires IsI64(x)
    ensures GetI64(s).Got? && GetI64(s).value == x <==> |s| >= 8 && s[..8] == PutI64(x)
    ensures |s| >= 8 ==> GetI64(s).Got? && GetI64(s).rest == s[8..]
  {
    WrapRoundTrip(x, TWO64);
    WordSizes();
    ValueOfDigits(Wrap(x, TWO64), 8);
    if GetI64(s).Got? && GetI64(s).value == x {
      ValueBound(s[..8]);
      SameValue(s[..8], PutI64(x));
    }
  }

  lemma OnlyI32(s: bytes, x: int)
    requires IsI32(x)
    ensures GetI32(s).Got? && GetI32(s).value == x <==> |s| >= 4 && s[..4] == PutI32(x)
    ensures |s| >= 4 ==> GetI32(s).Got? && GetI32(s).rest == s[4..]
  {
    WrapRoundTrip(x, TWO32);
    WordSizes();
    ValueOfDigits(Wrap(x, TWO32), 4);
    if GetI32(s).Got? && GetI32(s).value == x {
      SameValue(s[..4], PutI32(x));
    }
  }

  // ----- keys -----

  lemma FirstWord(vals: seq<nat>, widths: seq<nat>)
    requires |vals| == |widths| > 0
    ensures PutWords(vals, widths) == Digits(vals[0], widths[0]) + PutWords(vals[1..], widths[1..])
  {
  }

  lemma FromSecond<T>(s: seq<T>)
    requires |s| >= 2
    ensures s[1..][1..] == s[2..] && s[1..][0] == s[1]
  {
  }

  lemma TwoWords(vals: seq<nat>, widths: seq<nat>)
    requires |vals| == |widths| >= 2
    ensures PutWords(vals, widths) ==
            Digits(vals[0], widths[0]) + (Digits(vals[1], widths[1]) + PutWords(vals[2..], widths[2..]))
  {
    FirstWord(vals, widths);
    FirstWord(vals[1..], widths[1..]);
    FromSecond(vals);
    FromSecond(widths);
  }

  /** A key: level, outer size, internal size, records, sum, a reserved word, and the two hashes. */
  lemma KeyLayout(k: OpaqueKey)
    ensures PutKey(k) == PutI32(k.level) + (PutI32(k.osize) + (PutI64(k.isize) + (PutI64(k.irecs) +
                         (PutU32(k.isum) + (PutU32(0) + (k.key + k.ohash))))))
  {
    var ws := KeyWords(k);
    var a, b, m, r, i, z := Digits(ws[0], 4), Digits(ws[1], 4), Digits(ws[2], 8), Digits(ws[3], 8),
                            Digits(ws[4], 4), Digits(ws[5], 4);
    TwoWords(ws, KEY_WORDS);
    TwoWords(ws[2..], KEY_WORDS[2..]);
    TwoWords(ws[2..][2..], KEY_WORDS[2..][2..]);
    assert ws[2..] == [ws[2], ws[3], ws[4], ws[5]] && ws[2..][2..] == [ws[4], ws[5]] && [ws[4], ws[5]][2..] == [];
    assert KEY_WORDS[2..] == [8, 8, 4, 4] && [8, 8, 4, 4][2..] == [4, 4] && [4, 4][2..] == [];
    Nothing(z);
    SixThen(a, b, m, r, i, z, k.key + k.ohash);
  }

  lemma SixThen(a: bytes, b: bytes, c: bytes, d: bytes, e: bytes, f: bytes, rest: bytes)
    ensures (a + (b + (c + (d + (e + f))))) + rest == a + (b + (c + (d + (e + (f + rest)))))
  {
  }

  /** A key that fits is read back exactly if its fields are in range. */
  lemma KeyAcceptedIff(k: OpaqueKey, rest: bytes)
    requires Fits(k)
    ensures GetKey(PutKey(k) + rest).Got? <==> 0 <= k.level && 0 < k.osize && 0 < k.isize && 0 <= k.irecs <= k.isize
    ensures GetKey(PutKey(k) + rest).Got? ==> GetKey(PutKey(k) + rest).value == k
  {
    KeyRoundTrip(k, rest);
  }

  // ----- metadata -----

  lemma SmallWord(x: nat)
    requires x < 0x100
    ensures PutI32(x) == [0, 0, 0, x] && PutU32(x) == [0, 0, 0, x]
  {
    WrapRoundTrip(x, TWO32);
    WordBytes(x);
  }

  /** Metadata: 1 and the data; 2, the number of records and the data; or 3, the number of keys and
      the keys. */
  lemma InfoLayout(i: OpaqueInfo)
    requires Storable(i)
    ensures i.Inline1? ==> PutInfo(i) == [0, 0, 0, 1] + PutOpaque(i.dat)
    ensures i.InlineRecs? ==> PutInfo(i) == [0, 0, 0, 2] + (PutU32(i.nrecs) + PutOpaque(i.dat))
    ensures i.Indirect? ==> PutInfo(i) == [0, 0, 0, 3] + (PutI32(|i.kl|) + PutKeys(i.kl))
  {
    SmallWord(1);
    SmallWord(2);
    SmallWord(3);
  }

  lemma {:induction false} KeysSound(s: bytes, n: nat)
    ensures GetKeys(s, n).Got? ==>
              |GetKeys(s, n).value| == n &&
              forall k :: k in GetKeys(s, n).value ==>
                0 <= k.level && 0 < k.osize && 0 < k.isize && 0 <= k.irecs <= k.isize
    decreases n
  {
    if n > 0 && GetKey(s).Got? {
      KeysSound(GetKey(s).rest, n - 1);
    }
  }

  /** Whatever bytes metadata is read from: inline data is not empty and holds no more records than
      bytes, and there is at least one key and no bad one. */
  lemma InfoSound(s: bytes)
    ensures match GetInfo(s)
            case Null => true
            case Inline1(dat) => 0 < |dat|
            case InlineRecs(nrecs, dat) => 0 < nrecs <= |dat|
            case Indirect(kl) =>
              kl != [] &&
              forall k :: k in kl ==> 0 <= k.level && 0 < k.osize && 0 < k.isize && 0 <= k.irecs <= k.isize
  {
    if GetI32(s).Got? && GetI32(GetI32(s).rest).Got? {
      var n := GetI32(GetI32(s).rest);
      if n.value > 0 {
        KeysSound(n.rest, n.value);
      }
    }
  }

  // ----- records of the index -----

  /** The records of the index: 1, a hash, a path, an offset and a length; 2, a hash, a name and a
      length; or 3, a path and a file info. */
  lemma EntryLayout(e: Ix.Entry, s: bytes)
    requires Ix.EntryFits(e)
    ensures e.ChunkEntry? ==>
              (Ix.IsEntry(e, s) <==> s == [0, 0, 0, 1] + (PutOpaque(e.ohash) + (PutOpaque(e.fc.path) +
                                          (PutI64(e.fc.ofs) + PutI32(e.fc.len)))))
    ensures e.MetaEntry? ==>
              (Ix.IsEntry(e, s) <==> s == [0, 0, 0, 2] + (PutOpaque(e.ohash) + (PutOpaque(e.name) + PutI32(e.len))))
    ensures e.InfoEntry? ==>
              (Ix.IsEntry(e, s) <==> exists b :: IsEncoding(e.info, b) && s == [0, 0, 0, 3] + (PutOpaque(e.path) + b))
  {
    SmallWord(1);
    SmallWord(2);
    SmallWord(3);
  }

  // ----- attributes that are read -----

  /** Of the attributes as they come, those among the first 256 and of at most 65536 bytes. */
  lemma {:induction false} KeptFrom(all: map<Attr, bytes>, order: seq<Attr>, i: nat, at: map<Attr, bytes>, tag: Attr)
    requires forall x :: x in order ==> x in all
    ensures tag in Kept(all, order, i, at) <==>
            tag in at || exists j :: 0 <= j < |order| && order[j] == tag && i + j < 256 && |all[tag]| <= 65536
    decreases |order|
  {
    if order != [] {
      KeptFrom(all, order[1..], i + 1, AddAttr(at, i, order[0], all[order[0]]), tag);
      var rest := order[1..];
      if j :| 0 <= j < |order| && order[j] == tag && i + j < 256 && |all[tag]| <= 65536 {
        if j > 0 {
          assert rest[j - 1] == tag;
        }
      }
      if j :| 0 <= j < |rest| && rest[j] == tag && i + 1 + j < 256 && |all[tag]| <= 65536 {
        assert order[j + 1] == tag;
      }
    }
  }

  /** Which attributes of a written record are read. */
  lemma AttrsRead(f: FileInfo, order: seq<Attr>, rest: bytes, tag: Attr)
    requires Encodable(f) && |order| < TWO31 && forall x :: x in order ==> x in f.at
    ensures GetFileInfo(PutFileInfo(f, order) + rest).Got?
    ensures tag in GetFileInfo(PutFileInfo(f, order) + rest).value.at <==>
            exists j :: 0 <= j < |order| && order[j] == tag && j < 256 && |f.at[tag]| <= 65536
  {
    DecodesKept(f, order, rest);
    KeptFrom(f.at, order, 0, map[], tag);
  }

  /** A negative number of attributes is read as a record without type and attributes. */
  lemma NegativeCount(t: int, n: int, rest: bytes)
    requires IsI32(t) && IsI32(n) && n < 0
    ensures GetFileInfo(PutI32(t) + (PutI32(n) + rest)) == Got(FileInfo(0, map[]), rest)
  {
    I32RoundTrip(t, PutI32(n) + rest);
    I32RoundTrip(n, rest);
  }

  // ----- headers of archived chunks -----

  /** A chunk of the archive: the signature, the size, the check, and the data. */
  lemma ChunkLayout(c: Crypto, d: bytes)
    requires Arch.Writable(d)
    ensures Arch.PutChunk(c, d) ==
            PutU32(0x5658_4163) + (PutU32(|d|) + (Digits(c.check(c.sha512(d)), 8) + d))
  {
    var ws := [Arch.CHUNKSIG, Wrap(|d|, TWO32), Arch.CheckOf(c, d)];
    WrapRoundTrip(|d|, TWO32);
    var s, n, k := Digits(ws[0], 4), Digits(ws[1], 4), Digits(ws[2], 8);
    TwoWords(ws, Arch.HEADER);
    assert ws[2..] == [ws[2]] && Arch.HEADER[2..] == [8];
    assert [ws[2]][1..] == [] && [8][1..] == [];
    assert PutWords([ws[2]], [8]) == k + [];
    Nothing(k);
    assert (s + (n + k)) + d == s + (n + (k + d));
  }

  /** A header is accepted exactly if it is there, has the signature and a positive size. */
  lemma HeadIff(file: bytes, pos: nat)
    ensures Arch.ReadHeader(file, pos).Some? <==>
            pos + 16 <= |file| && file[pos..pos + 4] == PutU32(0x5658_4163) && SizeAt(file[pos..pos + 16]) > 0
    ensures Arch.ReadHeader(file, pos).Some? ==>
            Arch.ReadHeader(file, pos).value == Arch.Head(CheckAt(file[pos..pos + 16]), SizeAt(file[pos..pos + 16]))
  {
    if pos + 16 <= |file| {
      var h := file[pos..pos + 16];
      ThreeWords(h);
      assert h[..4] == file[pos..pos + 4];
      WordSizes();
      ValueOfDigits(0x5658_4163, 4);
      if Value(h[..4]) == 0x5658_4163 {
        SameValue(h[..4], PutU32(0x5658_4163));
      }
    }
  }

  /** The size in a header, in two's complement, and the check. */
  function SizeAt(h: bytes): int
    requires |h| == 16
  {
    Unwrap(Value(h[4..8]), TWO32)
  }

  function CheckAt(h: bytes): u64
    requires |h| == 16
  {
    ValueBound(h[8..16]);
    WordSizes();
    Value(h[8..16])
  }

  lemma ThreeWords(h: bytes)
    requires |h| == 16
    ensures GetWords(h, Arch.HEADER) == Got([Value(h[..4]), Value(h[4..8]), Value(h[8..16])], [])
  {
    var a, b, c := Value(h[..4]), Value(h[4..8]), Value(h[8..16]);
    var s1, s2 := h[4..], h[8..];
    assert s1[..4] == h[4..8] && s1[4..] == s2 && s2[..8] == h[8..16] && s2[8..] == [];
    GetWordsStep(s2, [8], c, [], [], []);
    assert [8][1..] == [] && [c] + [] == [c];
    assert [4, 8][1..] == [8] && Arch.HEADER[1..] == [4, 8];
    GetWordsStep(s1, [4, 8], b, s2, [c], []);
    assert [b] + [c] == [b, c];
    GetWordsStep(h, Arch.HEADER, a, s1, [b, c], []);
    assert [a] + [b, c] == [a, b, c];
  }
}
