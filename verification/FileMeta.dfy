/** File metadata records: a type code and a table of attributes, in any order. */
module FileMeta {
  import opened Bytes
  import opened Listing
  import opened Xdr

  const MAX_ATTR_SIZE: nat := 65536
  const MAX_ATTR_COUNT: nat := 256

  const NULL_TYPE := 0

  /** An attribute tag. */
  datatype Attr = Attr(code: int)

  datatype FileInfo = FileInfo(t: int, at: map<Attr, bytes>)

  const NULL_INFO := FileInfo(NULL_TYPE, map[])

  /** The fields fit the widths they are stored in. */
  predicate Encodable(f: FileInfo) {
    IsI32(f.t) && |f.at| < TWO31 && forall tag :: tag in f.at ==> IsI32(tag.code) && |f.at[tag]| < TWO32
  }

  /** What a reader is willing to take. */
  predicate WithinLimits(f: FileInfo) { Small(f.at) }

  predicate Small(at: map<Attr, bytes>) {
    |at| <= MAX_ATTR_COUNT && forall tag :: tag in at ==> |at[tag]| <= MAX_ATTR_SIZE
  }

  // ----- writing -----

  function PutAttr(tag: Attr, value: bytes): (s: bytes)
    requires |value| < TWO32
    ensures |s| >= 8
  {
    PutI32(tag.code) + PutOpaque(value)
  }

  function PutAttrs(at: map<Attr, bytes>, order: seq<Attr>): bytes
    requires forall tag :: tag in order ==> tag in at && |at[tag]| < TWO32
  {
    if order == [] then [] else PutAttr(order[0], at[order[0]]) + PutAttrs(at, order[1..])
  }

  /** `FileInfo::encode`, when the table of attributes is walked in this order. */
  function PutFileInfo(f: FileInfo, order: seq<Attr>): (s: bytes)
    requires Encodable(f) && |order| < TWO31 && forall tag :: tag in order ==> tag in f.at
    ensures |s| >= 8
  {
    PutI32(f.t) + (PutI32(|order|) + PutAttrs(f.at, order))
  }

  ghost predicate IsEncoding(f: FileInfo, s: bytes) {
    Encodable(f) && exists order ::
      Lists(order, f.at.Keys) && |order| < TWO31 && (forall tag :: tag in order ==> tag in f.at) &&
      s == PutFileInfo(f, order)
  }

  // ----- reading -----

  function GetAttr(s: bytes): Read<(Attr, bytes)> {
    var (tag, s1) :- GetI32(s);
    var (value, s2) :- GetOpaque(s1);
    Got((Attr(tag), value), s2)
  }

  /** The `i`-th attribute counts unless there are too many already or it is too big. */
  function AddAttr(at: map<Attr, bytes>, i: nat, tag: Attr, value: bytes): map<Attr, bytes> {
    if i >= MAX_ATTR_COUNT || |value| > MAX_ATTR_SIZE then at else at[tag := value]
  }

  /** Attributes `i` to `n`. */
  function GetAttrs(s: bytes, i: nat, n: nat, at: map<Attr, bytes>): Read<map<Attr, bytes>>
    decreases n - i
  {
    if i >= n then Got(at, s) else
      match GetAttr(s)
      case Bad => Bad
      case Got((tag, value), rest) => GetAttrs(rest, i + 1, n, AddAttr(at, i, tag, value))
  }

  /** `FileInfo::decode`. A negative count gives the null record without an error. */
  function GetFileInfo(s: bytes): Read<FileInfo> {
    match GetI32(s)
    case Bad => Bad
    case Got(t, s1) =>
      match GetI32(s1)
      case Bad => Bad
      case Got(n, s2) =>
        if n < 0 then Got(NULL_INFO, s2) else
          match GetAttrs(s2, 0, n, map[])
          case Bad => Bad
          case Got(at, s3) => Got(FileInfo(t, at), s3)
  }

  lemma NextAttr(s: bytes, i: nat, n: nat, at: map<Attr, bytes>, a: Read<(Attr, bytes)>)
    requires i < n && a == GetAttr(s)
    ensures GetAttrs(s, i, n, at) ==
            if a.Bad? then Bad else GetAttrs(a.rest, i + 1, n, AddAttr(at, i, a.value.0, a.value.1))
  {
  }

  /** What is done with one attribute: those that exceed a limit are ignored. */
  method TakeAttr(at: map<Attr, bytes>, i: nat, tag: Attr, value: bytes) returns (at': map<Attr, bytes>)
    ensures at' == AddAttr(at, i, tag, value)
  {
    if i >= MAX_ATTR_COUNT || |value| > MAX_ATTR_SIZE {
      return at;
    }
    at' := at[tag := value];
  }

  /** The decoding loop. */
  method DecodeAttrs(s: bytes, n: nat) returns (r: Read<map<Attr, bytes>>)
    ensures r == GetAttrs(s, 0, n, map[])
  {
    ghost var all := GetAttrs(s, 0, n, map[]);
    var rest, at: map<Attr, bytes>, i := s, map[], 0;
    while i < n
      invariant 0 <= i <= n && GetAttrs(rest, i, n, at) == all
    {
      var a := GetAttr(rest);
      NextAttr(rest, i, n, at, a);
      if a.Bad? {
        return Bad;
      }
      rest := a.rest;
      at := TakeAttr(at, i, a.value.0, a.value.1);
      i := i + 1;
    }
    return Got(at, rest);
  }

  method Decode(s: bytes) returns (r: Read<FileInfo>)
    ensures r == GetFileInfo(s)
  {
    var code := GetI32(s);
    if code.Bad? {
      return Bad;
    }
    var count := GetI32(code.rest);
    if count.Bad? {
      return Bad;
    }
    if count.value < 0 {
      return Got(NULL_INFO, count.rest);
    }
    var at := DecodeAttrs(count.rest, count.value);
    return if at.Bad? then Bad else Got(FileInfo(code.value, at.value), at.rest);
  }

  // ----- round trip -----

  lemma AttrRoundTrip(tag: Attr, value: bytes, rest: bytes)
    requires IsI32(tag.code) && |value| < TWO32
    ensures GetAttr(PutAttr(tag, value) + rest) == Got((tag, value), rest)
  {
    assert PutAttr(tag, value) + rest == PutI32(tag.code) + (PutOpaque(value) + rest);
    I32RoundTrip(tag.code, PutOpaque(value) + rest);
    OpaqueRoundTrip(value, rest);
  }

  /** The attributes a reader keeps of those written in this order. */
  function Kept(all: map<Attr, bytes>, order: seq<Attr>, i: nat, at: map<Attr, bytes>): map<Attr, bytes>
    requires forall tag :: tag in order ==> tag in all
    decreases |order|
  {
    if order == [] then at else Kept(all, order[1..], i + 1, AddAttr(at, i, order[0], all[order[0]]))
  }

  lemma {:induction false} AttrsRoundTrip(all: map<Attr, bytes>, order: seq<Attr>, i: nat, n: nat,
                                          at: map<Attr, bytes>, rest: bytes)
    requires forall tag :: tag in order ==> tag in all && IsI32(tag.code) && |all[tag]| < TWO32
    requires n == i + |order|
    ensures GetAttrs(PutAttrs(all, order) + rest, i, n, at) == Got(Kept(all, order, i, at), rest)
    decreases |order|
  {
    if order == [] {
      assert PutAttrs(all, order) + rest == rest;
    } else {
      var tag := order[0];
      var tail := PutAttrs(all, order[1..]) + rest;
      assert PutAttrs(all, order) + rest == PutAttr(tag, all[tag]) + tail;
      AttrRoundTrip(tag, all[tag], tail);
      AttrsRoundTrip(all, order[1..], i + 1, n, AddAttr(at, i, tag, all[tag]), rest);
    }
  }

  /** Nothing is kept that was not written, nothing too big, and not too much. */
  lemma {:induction false} KeptBounds(all: map<Attr, bytes>, order: seq<Attr>, i: nat, at: map<Attr, bytes>)
    requires forall tag :: tag in order ==> tag in all
    requires |at| <= i && Small(at)
    ensures Small(Kept(all, order, i, at))
    decreases |order|
  {
    if order != [] {
      var at' := AddAttr(at, i, order[0], all[order[0]]);
      assert at'.Keys <= at.Keys + {order[0]};
      SizeBound(at'.Keys, at.Keys, order[0]);
      KeptBounds(all, order[1..], i + 1, at');
    }
  }

  lemma SizeBound(a: set<Attr>, b: set<Attr>, x: Attr)
    requires a <= b + {x}
    ensures |a| <= |b| + 1
  {
    SubsetSize(a - {x}, b);
    assert a <= (a - {x}) + {x};
    SubsetSize(a, (a - {x}) + {x});
  }

  lemma {:induction false} SubsetSize<T>(a: set<T>, b: set<T>)
    requires a <= b
    ensures |a| <= |b|
    decreases a
  {
    if a != {} {
      var x :| x in a;
      SubsetSize(a - {x}, b - {x});
    }
  }

  /** Within the limits everything is kept. */
  lemma {:induction false} KeptAll(all: map<Attr, bytes>, order: seq<Attr>, i: nat, at: map<Attr, bytes>)
    returns (kept: map<Attr, bytes>)
    requires forall tag :: tag in order ==> tag in all && |all[tag]| <= MAX_ATTR_SIZE
    requires i + |order| <= MAX_ATTR_COUNT
    requires forall tag :: tag in at ==> tag in all && at[tag] == all[tag]
    ensures kept == Kept(all, order, i, at)
    ensures forall tag :: tag in kept <==> tag in at || tag in order
    ensures forall tag :: tag in kept ==> tag in all && kept[tag] == all[tag]
    decreases |order|
  {
    kept := at;
    if order != [] {
      kept := KeptAll(all, order[1..], i + 1, AddAttr(at, i, order[0], all[order[0]]));
    }
  }

  lemma DecodesTo(s: bytes, t: int, s1: bytes, n: nat, s2: bytes, at: map<Attr, bytes>, rest: bytes)
    requires GetI32(s) == Got(t, s1) && GetI32(s1) == Got(n as int, s2)
    requires GetAttrs(s2, 0, n, map[]) == Got(at, rest)
    ensures GetFileInfo(s) == Got(FileInfo(t, at), rest)
  {
  }

  lemma KeptIff(f: FileInfo, order: seq<Attr>)
    requires Lists(order, f.at.Keys) && forall tag :: tag in order ==> tag in f.at
    ensures Kept(f.at, order, 0, map[]) == f.at <==> WithinLimits(f)
  {
    KeptBounds(f.at, order, 0, map[]);
    ListSize(order, f.at.Keys);
    if Small(f.at) {
      KeptSame(f.at, order);
    }
  }

  lemma KeptSame(all: map<Attr, bytes>, order: seq<Attr>)
    requires (forall tag :: tag in order <==> tag in all.Keys) && |order| <= MAX_ATTR_COUNT && Small(all)
    ensures Kept(all, order, 0, map[]) == all
  {
    var kept := KeptAll(all, order, 0, map[]);
    SameMaps(kept, all);
  }

  lemma SameMaps<K(!new), V(!new)>(a: map<K, V>, b: map<K, V>)
    requires forall k :: k in a ==> k in b && a[k] == b[k]
    requires forall k :: k in b.Keys ==> k in a
    ensures a == b
  {
    assert a.Keys == b.Keys;
  }

  /** What is read back: the attributes that are kept. */
  lemma DecodesKept(f: FileInfo, order: seq<Attr>, rest: bytes)
    requires Encodable(f) && |order| < TWO31 && forall tag :: tag in order ==> tag in f.at
    ensures GetFileInfo(PutFileInfo(f, order) + rest) == Got(FileInfo(f.t, Kept(f.at, order, 0, map[])), rest)
  {
    var s, s1, tail := InfoBytes(f, order, rest);
    I32RoundTrip(f.t, s1);
    I32RoundTrip(|order|, tail);
    AttrsRoundTrip(f.at, order, 0, |order|, map[], rest);
    DecodesTo(s, f.t, s1, |order|, tail, Kept(f.at, order, 0, map[]), rest);
  }

  lemma InfoBytes(f: FileInfo, order: seq<Attr>, rest: bytes) returns (s: bytes, s1: bytes, tail: bytes)
    requires Encodable(f) && |order| < TWO31 && forall tag :: tag in order ==> tag in f.at
    ensures tail == PutAttrs(f.at, order) + rest && s1 == PutI32(|order|) + tail
    ensures s == PutFileInfo(f, order) + rest && s == PutI32(f.t) + s1
  {
    tail := PutAttrs(f.at, order) + rest;
    s1 := PutI32(|order|) + tail;
    s := PutFileInfo(f, order) + rest;
  }

  /** Encoded in any order, a record is read back unchanged exactly when it is within the limits
      on the number and the size of its attributes. */
  lemma FileInfoRoundTrip(f: FileInfo, order: seq<Attr>, rest: bytes)
    requires Encodable(f) && Lists(order, f.at.Keys) && |order| < TWO31
    requires forall tag :: tag in order ==> tag in f.at
    ensures GetFileInfo(PutFileInfo(f, order) + rest) == Got(f, rest) <==> WithinLimits(f)
  {
    DecodesKept(f, order, rest);
    KeptIff(f, order);
  }

  // ----- records beyond the limits -----

  /** What a reader makes of a written record. */
  function ReadInfo(s: bytes): FileInfo {
    match GetFileInfo(s)
    case Bad => NULL_INFO
    case Got(f, _) => f
  }

  /** `g` has the type of `f` and only attributes of `f`, within the limits; it is `f` exactly if
      `f` is within them. */
  ghost predicate ReadsAs(f: FileInfo, g: FileInfo) {
    g.t == f.t && Small(g.at) && (forall tag :: tag in g.at ==> tag in f.at && g.at[tag] == f.at[tag]) &&
    (g == f <==> WithinLimits(f))
  }

  lemma {:induction false} KeptOnly(all: map<Attr, bytes>, order: seq<Attr>, i: nat, at: map<Attr, bytes>)
    returns (kept: map<Attr, bytes>)
    requires forall tag :: tag in order ==> tag in all
    requires forall tag :: tag in at ==> tag in all && at[tag] == all[tag]
    ensures kept == Kept(all, order, i, at)
    ensures forall tag :: tag in kept ==> tag in all && kept[tag] == all[tag]
    decreases |order|
  {
    kept := at;
    if order != [] {
      kept := KeptOnly(all, order[1..], i + 1, AddAttr(at, i, order[0], all[order[0]]));
    }
  }

  /** Every written record is read back, whatever follows it, and the limits say how it changes. */
  lemma EncodingReads(f: FileInfo, s: bytes, rest: bytes)
    requires IsEncoding(f, s)
    ensures GetFileInfo(s + rest) == Got(ReadInfo(s), rest) && |s| >= 8
    ensures ReadsAs(f, ReadInfo(s))
  {
    var order :| Lists(order, f.at.Keys) && |order| < TWO31 && (forall tag :: tag in order ==> tag in f.at) &&
                 s == PutFileInfo(f, order);
    var kept := KeptOnly(f.at, order, 0, map[]);
    KeptBounds(f.at, order, 0, map[]);
    KeptIff(f, order);
    DecodesKept(f, order, rest);
    DecodesKept(f, order, []);
    assert s + [] == s;
  }

  /** One attribute a byte too long is gone when the record is read. */
  lemma TooLongIsLost(t: int, x: Attr, s: bytes)
    requires IsEncoding(FileInfo(t, map[x := Zeros(MAX_ATTR_SIZE + 1)]), s)
    ensures ReadInfo(s) == FileInfo(t, map[])
  {
    var f := FileInfo(t, map[x := Zeros(MAX_ATTR_SIZE + 1)]);
    EncodingReads(f, s, []);
    SameMaps(ReadInfo(s).at, map[]);
  }
}
