/** The coder as it is written: one buffer shifted in place, record marks and key lists updated
    in place. Every method is tied to the byte-at-a-time chunker and to the key tree it grows. */
module Coder {
  import opened Bytes
  import opened OpaqueMeta
  import opened KeyTree
  import opened Levels
  import opened Build
  import opened Chunker
  import opened ChunkerRuns
  import opened Alignment
  import opened RecordRuns
  import opened Selection
  import opened Coded
  import Adler32
  import Rolling

  // ----- encoding one chunk -----

  method EncDataChunk(c: Crypto, data: bytes, recs: nat) returns (k: OpaqueKey, cyph: bytes)
    ensures k == DataKey(c, data, recs) && cyph == Encrypt(c, data)
  {
    var isum := Adler32.Compute(data, Adler32.INIT);
    var key := c.sha256(data);
    cyph := c.ctr(key, data);
    k := OpaqueKey(0, |data|, |data|, recs, isum, key, c.sha512(cyph));
  }

  method EncKeyChunk(c: Crypto, ks: seq<OpaqueKey>) returns (k: OpaqueKey, cyph: bytes)
    requires ks != [] && NonNegSizes(ks)
    ensures k == ChunkKey(c, ks) && cyph == Encrypt(c, PutKeys(ks))
  {
    var isize, irecs, isum: u32, buf: bytes := 0, 0, Adler32.INIT, [];
    var i := 0;
    while i < |ks|
      invariant 0 <= i <= |ks|
      invariant isize + SumSizes(ks[i..]) == SumSizes(ks)
      invariant irecs + SumRecs(ks[i..]) == SumRecs(ks)
      invariant CatSums(isum, ks[i..]) == CatSums(Adler32.INIT, ks)
      invariant buf + PutKeys(ks[i..]) == PutKeys(ks)
    {
      var subk := ks[i];
      assert ks[i..][0] == subk && ks[i..][1..] == ks[i + 1..];
      isize := isize + subk.isize;
      irecs := irecs + subk.irecs;
      isum := Adler32.Cat(isum, subk.isum, subk.isize);
      Assoc(buf, PutKey(subk), PutKeys(ks[i + 1..]));
      buf := buf + PutKey(subk);
      i := i + 1;
    }
    assert ks[i..] == [] && buf + [] == buf;
    var key := c.sha256(buf);
    cyph := c.ctr(key, buf);
    k := OpaqueKey(ks[0].level + 1, |buf|, isize, irecs, isum, key, c.sha512(cyph));
  }

  /** The end of the next key chunk: lowest check from the 4th key on, the last of several. */
  method SelectEnd(c: Crypto, kl: seq<OpaqueKey>) returns (selend: nat)
    requires |kl| > MAXKEYS
    ensures selend == SplitPoint(c, kl)
  {
    ghost var vals := Checks(c, kl[MINKEYS - 1..MAXKEYS]);
    selend := MINKEYS;
    var selcheck := c.check(kl[MINKEYS - 1].ohash);
    var i := MINKEYS;
    while i < MAXKEYS
      invariant MINKEYS <= i <= MAXKEYS
      invariant selend == MINKEYS + LastMin(vals, i - MINKEYS + 1)
      invariant selcheck == vals[LastMin(vals, i - MINKEYS + 1)]
    {
      var check := c.check(kl[i].ohash);
      LastMinStep(vals, i - MINKEYS + 1, selend - MINKEYS, selcheck);
      if check <= selcheck {
        selend := i + 1;
        selcheck := check;
      }
      i := i + 1;
    }
  }

  /** The first mark that leaves a chunk of the minimum size. */
  method FirstMark(marks: seq<nat>) returns (i: nat)
    requires |marks| > 1 && marks[|marks| - 1] >= MIN_CHUNK
    ensures i == FirstEligible(marks, 1)
  {
    i := 1;
    while marks[i] < MIN_CHUNK
      invariant 1 <= i < |marks| && FirstEligible(marks, 1) == FirstEligible(marks, i)
      decreases |marks| - i
    {
      i := i + 1;
    }
  }

  /** The best split among the given ends of a chunk, the last one if several are best. */
  method BestEnd(data: bytes, ends: seq<nat>) returns (best: nat)
    requires ends != [] && forall k :: 0 <= k < |ends| ==> MIN_CHUNK <= ends[k] <= |data|
    requires forall j, k :: 0 <= j < k < |ends| ==> ends[j] < ends[k]
    ensures best == Rolling.Best(data, MIN_CHUNK, ends)
  {
    ghost var vals := Rolling.SlabValues(data, MIN_CHUNK, ends, |ends|);
    var rc := new Rolling.RollingChecksum(data, ends[0] - MIN_CHUNK, ends[0]);
    best := 0;
    var splitsum := rc.Sum();
    Rolling.SlabValueAt(data, MIN_CHUNK, ends, |ends|, 0);
    var i := 1;
    while i < |ends|
      invariant 1 <= i <= |ends|
      invariant rc.Valid() && rc.buf == data && rc.j == ends[i - 1] && rc.j - rc.i == MIN_CHUNK
      invariant best == LastMin(vals, i) && splitsum == vals[best]
    {
      assert ends[i - 1] < ends[i];
      rc.AdvanceEnd(ends[i]);
      var sum := rc.Sum();
      Rolling.SlabValueAt(data, MIN_CHUNK, ends, |ends|, i);
      LastMinStep(vals, i, best, splitsum);
      if sum <= splitsum {
        best := i;
        splitsum := sum;
      }
      i := i + 1;
    }
  }

  /** The best split among the record marks that leave a chunk of the minimum size. */
  method BestMark(data: bytes, marks: seq<nat>) returns (splitsize: nat, splitrecs: nat)
    requires MarksOk(marks, |data|) && |marks| > 1 && marks[|marks| - 1] >= MIN_CHUNK
    ensures var i := FirstEligible(marks, 1);
            (forall k :: 0 <= k < |marks[i..]| ==> MIN_CHUNK <= marks[i..][k] <= |data|) &&
            splitrecs == i + Rolling.Best(data, MIN_CHUNK, marks[i..]) && splitsize == marks[splitrecs]
  {
    var i := FirstMark(marks);
    EligibleEnds(data, marks, i);
    var best := BestEnd(data, marks[i..]);
    splitrecs := i + best;
    splitsize := marks[splitrecs];
  }

  /** Where the pending bytes are split, and how many of their marks go with the chunk. */
  method ChooseSplit(data: bytes, marks: seq<nat>) returns (splitsize: nat, splitrecs: nat)
    requires 0 < |data| <= MAX_CHUNK && MarksOk(marks, |data|)
    ensures (splitsize, splitrecs) == Cut(data, marks)
  {
    var newrecs := |marks|;
    if |data| < MAX_CHUNK {
      splitsize := |data|;
      splitrecs := if newrecs > 0 && marks[newrecs - 1] == |data| then newrecs - 1 else newrecs;
    } else if newrecs <= 1 {
      splitsize := Rolling.ScanChunk(data, MIN_CHUNK, MAX_CHUNK);
      splitrecs := newrecs;
    } else if marks[newrecs - 1] < MIN_CHUNK {
      splitsize := marks[newrecs - 1];
      splitrecs := newrecs - 1;
    } else {
      splitsize, splitrecs := BestMark(data, marks);
    }
  }

  /** `memmove` to the front of the buffer. */
  method MoveDown(buf: array<byte>, from: nat, n: nat)
    requires from + n <= buf.Length
    modifies buf
    ensures buf[..n] == old(buf[from..from + n])
  {
    var i := 0;
    while i < n
      invariant 0 <= i <= n
      invariant forall k :: 0 <= k < i ==> buf[k] == old(buf[from + k])
      invariant forall k :: i <= k < buf.Length ==> buf[k] == old(buf[k])
    {
      buf[i] := buf[from + i];
      i := i + 1;
    }
  }

  /** `memcpy` of `data` into the buffer at `at`. */
  method CopyIn(buf: array<byte>, at: nat, data: bytes)
    requires at + |data| <= buf.Length
    modifies buf
    ensures buf[..at + |data|] == old(buf[..at]) + data
  {
    var i := 0;
    while i < |data|
      invariant 0 <= i <= |data|
      invariant forall k :: 0 <= k < at ==> buf[k] == old(buf[k])
      invariant forall k :: 0 <= k < i ==> buf[at + k] == data[k]
    {
      buf[at + i] := data[i];
      i := i + 1;
    }
  }

  method ShiftMarks(oldmarks: seq<nat>, splitrecs: nat, splitsize: nat) returns (marks: seq<nat>)
    requires splitrecs <= |oldmarks|
    requires forall i :: splitrecs <= i < |oldmarks| ==> oldmarks[i] >= splitsize
    ensures marks == Shift(oldmarks, splitrecs, splitsize)
  {
    marks := [];
    var i := splitrecs;
    while i < |oldmarks|
      invariant splitrecs <= i <= |oldmarks| && |marks| == i - splitrecs
      invariant forall k :: 0 <= k < |marks| ==> marks[k] == oldmarks[splitrecs + k] - splitsize
    {
      marks := marks + [oldmarks[i] - splitsize];
      i := i + 1;
    }
  }

  ghost predicate AllTreesOk(f: Forest) {
    forall i, j :: 0 <= i < |f| && 0 <= j < |f[i]| ==> TreeOk(f[i][j])
  }

  /** The keys of the trees, level by level. */
  ghost function KeysAt(c: Crypto, f: Forest): (keys: seq<seq<OpaqueKey>>)
    requires AllTreesOk(f)
    ensures |keys| == |f|
  {
    seq(|f|, i requires 0 <= i < |f| => KeysOf(c, f[i]))
  }

  /** The key lists hold the keys of the trees. */
  ghost predicate Mirrors(c: Crypto, keys: seq<seq<OpaqueKey>>, f: Forest) {
    AllTreesOk(f) && keys == KeysAt(c, f)
  }

  lemma MirrorsEach(c: Crypto, keys: seq<seq<OpaqueKey>>, f: Forest)
    requires |keys| == |f| && forall i :: 0 <= i < |f| ==> AreKeys(c, keys[i], f[i])
    ensures Mirrors(c, keys, f)
  {
    assert AllTreesOk(f) by {
      forall i, j | 0 <= i < |f| && 0 <= j < |f[i]| ensures TreeOk(f[i][j]) {
        assert AreKeys(c, keys[i], f[i]);
      }
    }
    assert forall i :: 0 <= i < |f| ==> keys[i] == KeysAt(c, f)[i];
  }

  ghost predicate AreKeys(c: Crypto, ks: seq<OpaqueKey>, ts: seq<Tree>) {
    (forall j :: 0 <= j < |ts| ==> TreeOk(ts[j])) && ks == KeysOf(c, ts)
  }

  /** The key lists with one more key at its level. */
  function AppendKey(keys: seq<seq<OpaqueKey>>, lev: nat, key: OpaqueKey): seq<seq<OpaqueKey>>
    requires lev <= |keys|
  {
    if lev == |keys| then keys + [[key]] else keys[lev := keys[lev] + [key]]
  }

  lemma MirrorsAppend(c: Crypto, keys: seq<seq<OpaqueKey>>, f: Forest, t: Tree)
    requires Mirrors(c, keys, f) && TreeOk(t) && Level(t) <= |f|
    ensures Mirrors(c, AppendKey(keys, Level(t), KeyOf(c, t)), Append(f, t))
  {
    var ks, f1, lev := AppendKey(keys, Level(t), KeyOf(c, t)), Append(f, t), Level(t);
    forall i | 0 <= i < |f1| ensures AreKeys(c, ks[i], f1[i]) {
      if i == lev {
        var old_ks, old_ts := if lev == |f| then [] else keys[lev], if lev == |f| then [] else f[lev];
        assert AreKeys(c, old_ks, old_ts);
        SnocKey(c, old_ks, old_ts, t);
      } else {
        assert AreKeys(c, keys[i], f[i]);
      }
    }
    MirrorsEach(c, ks, f1);
  }

  lemma SnocKey(c: Crypto, ks: seq<OpaqueKey>, ts: seq<Tree>, t: Tree)
    requires AreKeys(c, ks, ts) && TreeOk(t)
    ensures AreKeys(c, ks + [KeyOf(c, t)], ts + [t])
  {
  }

  /** What an overflowing level turns into, in terms of its keys. */
  lemma OverflowKeys(c: Crypto, f: Forest, t: Tree, kl: seq<OpaqueKey>, n: nat, nt: Tree)
    requires TreeOk(t) && Level(t) <= |f| && ForestOk(f, Level(t))
    requires |kl| > MAXKEYS && AreKeys(c, kl, Append(f, t)[Level(t)]) && n == SplitPoint(c, kl)
    requires |Append(f, t)[Level(t)]| == MAXKEYS + 1 && TreesOk(Append(f, t)[Level(t)], Level(t))
    requires ForestOk(Append(f, t), Level(t) + 1)
    requires nt == PushUp(c, Append(f, t)[Level(t)], Level(t))
    ensures Level(t) < |f| == |Append(f, t)|
    ensures AreKeys(c, kl[..n], nt.kids) && AreKeys(c, kl[n..], Append(f, t)[Level(t)][n..])
    ensures var f1 := Append(f, t);
            AddTree(c, f, t) == SetLevel(AddTree(c, f1, nt), Level(t), f1[Level(t)][n..]) &&
            AddEvents(c, f, t) == AddEvents(c, f1, nt) + [NodeEvent(c, nt)]
  {
    SliceKeys(c, kl, Append(f, t)[Level(t)], n);
  }

  lemma MirrorsSet(c: Crypto, keys: seq<seq<OpaqueKey>>, f: Forest, lev: nat, ks: seq<OpaqueKey>, ts: seq<Tree>)
    requires Mirrors(c, keys, f) && lev < |f| && AreKeys(c, ks, ts)
    ensures Mirrors(c, keys[lev := ks], SetLevel(f, lev, ts))
  {
    var keys', f' := keys[lev := ks], SetLevel(f, lev, ts);
    forall i | 0 <= i < |f'| ensures AreKeys(c, keys'[i], f'[i]) {
      assert AreKeys(c, keys[i], f[i]);
    }
    MirrorsEach(c, keys', f');
  }

  lemma SliceKeys(c: Crypto, ks: seq<OpaqueKey>, ts: seq<Tree>, n: nat)
    requires AreKeys(c, ks, ts) && n <= |ts|
    ensures AreKeys(c, ks[..n], ts[..n]) && AreKeys(c, ks[n..], ts[n..])
  {
  }

  /** The checksum composed chunk by chunk. */
  function RunningSum(ps: seq<Piece>): u32 {
    if ps == [] then Adler32.INIT else
      var n := |ps| - 1;
      Adler32.Cat(RunningSum(ps[..n]), Adler32.Of(ps[n].data), |ps[n].data|)
  }

  /** The composed checksum, and the one computed over all the data. */
  function Sums(ps: seq<Piece>): (u32, u32) { (RunningSum(ps), Adler32.Of(Content(ps))) }

  lemma PieceEventIs(c: Crypto, data: bytes, recs: nat, ofs: nat)
    requires PieceOk(Piece(data, recs))
    ensures PieceEvent(c, Piece(data, recs), ofs) ==
            DataChunk(Encrypt(c, data), DataKey(c, data, recs), ofs, |data|)
    ensures DataKey(c, data, recs) == KeyOf(c, Leaf(Piece(data, recs)))
  {
  }

  lemma SnocHandedOut(c: Crypto, ps: seq<Piece>, p: Piece)
    requires PiecesOk(ps) && PieceOk(p)
    ensures PiecesOk(ps + [p])
    ensures Grow(c, ps + [p]) == AddTree(c, Grow(c, ps), Leaf(p))
    ensures Log(c, ps + [p]) ==
            Log(c, ps) + AddEvents(c, Grow(c, ps), Leaf(p)) + [PieceEvent(c, p, |Content(ps)|)]
  {
    assert (ps + [p])[..|ps|] == ps;
  }

  /** What the coder keeps about the chunks handed out. */
  datatype Accounts = Accounts(size: nat, recs: nat, sums: (u32, u32), keys: seq<seq<OpaqueKey>>, out: seq<Event>)

  ghost function AccountOf(c: Crypto, ps: seq<Piece>): Accounts
    requires PiecesOk(ps) && AllTreesOk(Grow(c, ps))
  {
    Accounts(|Content(ps)|, Records(ps), Sums(ps), KeysAt(c, Grow(c, ps)), Log(c, ps))
  }

  /** A device delivers at least one of the bytes it still has, and no more than asked for. */
  method ReadSome(amount: nat, available: nat) returns (actual: nat)
    requires 0 < amount && 0 < available
    ensures 1 <= actual <= amount && actual <= available
  {
    actual :| 1 <= actual <= amount && actual <= available;
  }

  class OpaqueCoder {
    const crypto: Crypto

    // Totals over the chunks already handed out
    var totsize: nat
    var totrecs: nat
    var adleracc: u32
    var adlerchk: u32

    // The chunk being built
    var buf: array<byte>
    var avail: nat
    var marks: seq<nat>

    var keys: seq<seq<OpaqueKey>>

    // What the consumer has been given
    var out: seq<Event>

    // The stream as the chunker sees it
    ghost var s: State

    ghost function Account(): Accounts
      reads `totsize, `totrecs, `adleracc, `adlerchk, `keys, `out
    {
      Accounts(totsize, totrecs, (adleracc, adlerchk), keys, out)
    }

    /** Totals, checksums, keys and output are those of the chunks handed out so far. */
    ghost predicate HandedOut(ps: seq<Piece>)
      reads `totsize, `totrecs, `adleracc, `adlerchk, `keys, `out
    {
      PiecesOk(ps) && AllTreesOk(Grow(crypto, ps)) && Account() == AccountOf(crypto, ps)
    }

    /** The buffer and the marks are those of the chunker. */
    ghost predicate Linked()
      reads this, buf
    {
      avail <= buf.Length && buf[..avail] == s.pending && marks == s.marks && HandedOut(s.pieces)
    }

    ghost predicate Valid()
      reads this, buf
    {
      Linked() && Inv(s, MAX_CHUNK - 1)
    }

    constructor (c: Crypto)
      ensures Valid() && crypto == c && s == START && out == [] && fresh(buf)
    {
      crypto := c;
      totsize, totrecs := 0, 0;
      adleracc, adlerchk := Adler32.INIT, Adler32.INIT;
      buf := new byte[0];
      avail := 0;
      marks := [0];
      keys := [];
      out := [];
      s := START;
      new;
      StartInv();
      assert Content([]) == [];
    }

    /** `addKey`. */
    method AddKey(key: OpaqueKey, ghost t: Tree, ghost f: Forest)
      requires TreeOk(t) && Level(t) <= |f| && ForestOk(f, Level(t))
      requires Mirrors(crypto, keys, f) && key == KeyOf(crypto, t)
      modifies this`keys, this`out
      ensures Mirrors(crypto, keys, AddTree(crypto, f, t))
      ensures out == old(out) + AddEvents(crypto, f, t)
      decreases |f| - Level(t)
    {
      var lev := key.level;
      ghost var f1 := Append(f, t);
      KeyFacts(crypto, t);
      AppendOk(f, t);
      MirrorsAppend(crypto, keys, f, t);
      keys := AppendKey(keys, lev, key);
      var kl := keys[lev];
      assert AreKeys(crypto, kl, f1[lev]);
      if |kl| <= MAXKEYS {
        Nothing(out);
        return;
      }

      var selend := SelectEnd(crypto, kl);
      var nkl := kl[..selend];
      ghost var nt := PushUp(crypto, f1[lev], lev);
      OverflowKeys(crypto, f, t, kl, selend, nt);
      var nk, nkcyph := EncKeyChunk(crypto, nkl);
      AddKey(nk, nt, f1);
      Assoc(old(out), AddEvents(crypto, f1, nt), [NodeEvent(crypto, nt)]);
      MirrorsSet(crypto, keys, AddTree(crypto, f1, nt), lev, kl[selend..], f1[lev][selend..]);
      keys := keys[lev := kl[selend..]];
      out := out + [KeyChunk(nkcyph, nk, nkl)];
    }

    /** Composes the running checksum, and continues the one it is checked against. */
    method UpdateSums(data: bytes, isum: u32, ghost ps: seq<Piece>, ghost p: Piece)
      requires (adleracc, adlerchk) == Sums(ps) && isum == Adler32.Of(data) && p.data == data
      modifies `adleracc, `adlerchk
      ensures (adleracc, adlerchk) == Sums(ps + [p])
    {
      adleracc := Adler32.Cat(adleracc, isum, |data|);
      adlerchk := Adler32.Compute(data, adlerchk);
      assert (ps + [p])[..|ps|] == ps;
      SnocPiece(ps, p);
      Adler32.SumContinues(Content(ps), data);
    }

    /** Encodes a data chunk, adds its key and passes it to the consumer. */
    method EncodePiece(data: bytes, recs: nat, ghost ps: seq<Piece>) returns (isum: u32)
      requires PiecesOk(ps) && PieceOk(Piece(data, recs)) && totsize == |Content(ps)|
      requires Mirrors(crypto, keys, Grow(crypto, ps)) && out == Log(crypto, ps)
      modifies `keys, `out
      ensures var qs := ps + [Piece(data, recs)];
              PiecesOk(qs) && Mirrors(crypto, keys, Grow(crypto, qs)) && out == Log(crypto, qs)
      ensures isum == Adler32.Of(data)
    {
      ghost var p, f := Piece(data, recs), Grow(crypto, ps);
      SnocHandedOut(crypto, ps, p);
      PieceEventIs(crypto, data, recs, totsize);
      var k, cyph := EncDataChunk(crypto, data, recs);
      AddKey(k, Leaf(p), f);
      out := out + [DataChunk(cyph, k, totsize, |data|)];
      isum := k.isum;
    }

    /** Hands out the next data chunk and accounts for it. */
    method HandOut(data: bytes, recs: nat, ghost ps: seq<Piece>)
      requires HandedOut(ps) && PieceOk(Piece(data, recs))
      modifies `keys, `out, `adleracc, `adlerchk, `totsize, `totrecs
      ensures HandedOut(ps + [Piece(data, recs)])
    {
      ghost var p := Piece(data, recs);
      SnocPiece(ps, p);
      var isum := EncodePiece(data, recs, ps);
      UpdateSums(data, isum, ps, p);
      totsize := totsize + |data|;
      totrecs := totrecs + recs;
    }

    /** Drops the first `size` bytes and `recs` marks of the buffer. */
    method DropFront(size: nat, recs: nat)
      requires size <= avail <= buf.Length && recs <= |marks|
      requires forall i :: recs <= i < |marks| ==> marks[i] >= size
      modifies buf, `avail, `marks
      ensures avail == old(avail) - size && buf[..avail] == old(buf[..avail])[size..]
      ensures marks == Shift(old(marks), recs, size)
    {
      MoveDown(buf, size, avail - size);
      avail := avail - size;
      marks := ShiftMarks(marks, recs, size);
    }

    /** Hands out the first `size` bytes as one chunk with `recs` marks, and drops them. */
    method CutOff(size: nat, recs: nat, ghost p: Piece)
      requires Linked() && size <= avail && recs <= |marks|
      requires forall i :: recs <= i < |marks| ==> marks[i] >= size
      requires p == Piece(s.pending[..size], recs) && PieceOk(p)
      modifies buf, `avail, `marks, `keys, `out, `adleracc, `adlerchk, `totsize, `totrecs, `s
      ensures Linked()
      ensures s == State(old(s).pieces + [p], old(s).pending[size..],
                         Shift(old(s).marks, recs, size), old(s).starts)
    {
      assert buf[..size] == s.pending[..size];
      HandOut(buf[..size], recs, s.pieces);
      MoveOn(size, recs, s.pieces + [p]);
    }

    /** Drops the front of the buffer when its chunk has been handed out. */
    method MoveOn(size: nat, recs: nat, ghost qs: seq<Piece>)
      requires avail <= buf.Length && buf[..avail] == s.pending && marks == s.marks && HandedOut(qs)
      requires size <= avail && recs <= |marks|
      requires forall i :: recs <= i < |marks| ==> marks[i] >= size
      modifies buf, `avail, `marks, `s
      ensures Linked()
      ensures s == State(qs, old(s).pending[size..], Shift(old(s).marks, recs, size), old(s).starts)
    {
      ghost var s0 := s;
      DropFront(size, recs);
      s := State(qs, s0.pending[size..], Shift(s0.marks, recs, size), s0.starts);
    }

    /** `doChunk`: cuts the first chunk off the buffer. */
    method DoChunk()
      requires Linked() && 0 < avail && Shape(s, MAX_CHUNK)
      modifies this, buf
      ensures Linked() && s == Emit(old(s)) && buf == old(buf)
    {
      var splitsize, splitrecs := ChooseSplit(buf[..avail], marks);
      ghost var n, m, p := EmitParts(s);
      CutOff(splitsize, splitrecs, p);
    }

    /** Makes the buffer at least `size` bytes long. */
    method Reserve(size: nat)
      requires avail <= buf.Length
      modifies `buf
      ensures avail <= buf.Length && size <= buf.Length && buf[..avail] == old(buf[..avail])
      ensures buf == old(buf) || fresh(buf)
    {
      if buf.Length < size {
        var bigger := new byte[size];
        var i := 0;
        while i < avail
          invariant 0 <= i <= avail
          invariant forall k :: 0 <= k < i ==> bigger[k] == buf[k]
          modifies bigger
        {
          bigger[i] := buf[i];
          i := i + 1;
        }
        buf := bigger;
      }
    }

    /** Copies `data` behind the bytes already in the buffer. */
    method FillBuffer(data: bytes)
      requires avail + |data| <= buf.Length
      modifies buf, `avail
      ensures avail == old(avail) + |data| && buf[..avail] == old(buf[..avail]) + data
    {
      CopyIn(buf, avail, data);
      avail := avail + |data|;
    }

    /** Puts bytes into the buffer; it may be full then. */
    method Extend(data: bytes)
      requires Linked() && avail + |data| <= buf.Length
      modifies buf, `avail, `s
      ensures Linked() && s == old(s).(pending := old(s).pending + data)
    {
      ghost var s0 := s;
      FillBuffer(data);
      s := s0.(pending := s0.pending + data);
      assert s.pieces == s0.pieces;
    }

    /** Takes in bytes that fit the buffer, and makes a chunk when it is full. */
    method Accept(data: bytes)
      requires Linked() && Ready(s)
      requires avail + |data| <= MAX_CHUNK && avail + |data| <= buf.Length
      modifies this, buf
      ensures Linked() && s == Feed(old(s), data) && buf == old(buf)
    {
      ghost var s0 := s;
      Extend(data);
      if avail < MAX_CHUNK {
        FeedKeeps(s0, data);
      } else {
        FeedFills(s0, data, s);
        DoChunk();
      }
    }

    /** Takes in one part of a longer write that began in state `s0`. */
    method AcceptPart(data: bytes, m: nat, n: nat, ghost s0: State)
      requires m <= n <= |data| && Linked() && Ready(s0) && s == Feed(s0, data[..m])
      requires avail + (n - m) <= MAX_CHUNK && avail + (n - m) <= buf.Length
      modifies this, buf
      ensures Linked() && s == Feed(s0, data[..n]) && buf == old(buf)
      ensures avail < MAX_CHUNK
    {
      FeedPrefix(s0, data, m, n);
      Accept(data[m..n]);
    }

    /** `writeData`: the same as taking in the bytes one at a time. */
    method WriteData(data: bytes)
      requires Valid() && avail + |data| < TWO31
      modifies this, buf
      ensures Valid() && s == Feed(old(s), data) && (buf == old(buf) || fresh(buf))
    {
      FeedInv(s, data);
      Reserve(if avail + |data| < MAX_CHUNK then avail + |data| else MAX_CHUNK);
      FillAndCut(data);
    }

    /** Takes in all of `data`. */
    method FillAndCut(data: bytes)
      requires Linked() && Ready(s)
      requires avail + |data| <= buf.Length || MAX_CHUNK <= buf.Length
      modifies this, buf
      ensures Linked() && s == Feed(old(s), data) && buf == old(buf)
    {
      ghost var s0 := s;
      var pos := FillChunks(data);
      AcceptPart(data, pos, |data|, s0);
      assert data[..|data|] == data;
    }

    /** The copying loop of `writeData`: stops when the rest does not fill the buffer. */
    method FillChunks(data: bytes) returns (pos: nat)
      requires Linked() && Ready(s)
      requires avail + |data| <= buf.Length || MAX_CHUNK <= buf.Length
      modifies this, buf
      ensures Linked() && buf == old(buf) && pos <= |data| && s == Feed(old(s), data[..pos])
      ensures avail + (|data| - pos) < MAX_CHUNK && avail + (|data| - pos) <= buf.Length
    {
      ghost var s0 := s;
      pos := 0;
      while avail + (|data| - pos) >= MAX_CHUNK
        invariant 0 <= pos <= |data| && Linked() && s == Feed(s0, data[..pos])
        invariant MAX_CHUNK <= buf.Length || (pos == 0 && avail + |data| <= buf.Length)
        invariant buf == old(buf) && avail < MAX_CHUNK
        decreases |data| - pos
      {
        var next := pos + (MAX_CHUNK - avail);
        AcceptPart(data, pos, next, s0);
        pos := next;
      }
    }

    /** `readFrom`: takes in up to `maxsize` bytes of a device that delivers them in portions of
        any size; a negative `maxsize` means no limit to speak of. */
    method ReadFrom(input: bytes, maxsize: int) returns (actsize: nat)
      requires Valid()
      modifies this, buf
      ensures Valid() && (buf == old(buf) || fresh(buf))
      ensures var max := if maxsize < 0 then 0x4000_0000_0000_0000 else maxsize;
              actsize == (if |input| < max then |input| else max) && s == Feed(old(s), input[..actsize])
    {
      var max := if maxsize < 0 then 0x4000_0000_0000_0000 else maxsize;
      FeedInv(s, input[..if |input| < max then |input| else max]);
      Reserve(MAX_CHUNK);
      actsize := PullAndCut(input, max);
    }

    /** The reading loop of `readFrom`. */
    method PullAndCut(input: bytes, max: nat) returns (actsize: nat)
      requires Linked() && Ready(s) && MAX_CHUNK <= buf.Length
      modifies this, buf
      ensures Linked() && buf == old(buf)
      ensures actsize == (if |input| < max then |input| else max) && s == Feed(old(s), input[..actsize])
    {
      ghost var s0 := s;
      actsize := 0;
      while max > actsize && actsize < |input|
        invariant 0 <= actsize <= |input| && actsize <= max
        invariant Linked() && s == Feed(s0, input[..actsize])
        invariant buf == old(buf) && avail < MAX_CHUNK
        decreases |input| - actsize
      {
        var amount := MAX_CHUNK - avail;
        if amount > max - actsize {
          amount := max - actsize;
        }
        var actual := ReadSome(amount, |input| - actsize);
        var next := actsize + actual;
        AcceptPart(input, actsize, next, s0);
        actsize := next;
      }
    }

    /** A record begins behind the bytes in the buffer. */
    method AddMark(ghost starts: seq<nat>)
      requires Linked()
      modifies `marks, `s
      ensures Linked() && s == old(s).(marks := old(s).marks + [avail], starts := starts)
    {
      s := s.(marks := s.marks + [avail], starts := starts);
      marks := marks + [avail];
    }

    /** `markRecord`. */
    method MarkRecord()
      requires Valid() && CanMark(s)
      modifies this, buf
      ensures Valid() && s == Mark(old(s)) && buf == old(buf)
    {
      MarkInv(s);
      MarkBoundary();
    }

    /** Cuts off the tail of a long record first. */
    method MarkBoundary()
      requires Linked() && Ready(s) && CanMark(s)
      modifies this, buf
      ensures Linked() && s == Mark(old(s)) && buf == old(buf)
    {
      ghost var s0 := s;
      if |marks| == 0 && avail > 0 {
        DoChunk();
      }
      AddMark(s0.starts + [Total(s0)]);
    }

    /** `records`: despite its comment, one more than the number of marks made, for the record
        that begins at the start of the stream. */
    function RecordCount(): nat
      reads this
    {
      totrecs + |marks|
    }

    lemma RecordCountIsStarts()
      requires Valid()
      ensures RecordCount() == |s.starts|
    {
    }

    /** One round of the merging loop of `finish`. */
    method MergeOne(lev: nat, ghost f: Forest)
      requires lev < |f| && ForestOk(f, lev) && Mirrors(crypto, keys, f)
      modifies `keys, `out
      ensures Mirrors(crypto, keys, MergeLevel(crypto, f, lev))
      ensures LevelOk(f, lev) && TreeOk(Node(f[lev])) && Level(Node(f[lev])) == lev + 1
      ensures out == old(out) + (AddEvents(crypto, f, Node(f[lev])) + [NodeEvent(crypto, Node(f[lev]))])
    {
      assert LevelOk(f, lev);
      NodeOk(f[lev], lev);
      ghost var t := Node(f[lev]);
      var kl := keys[lev];
      var nk, nkcyph := EncKeyChunk(crypto, kl);
      AddKey(nk, t, f);
      Assoc(old(out), AddEvents(crypto, f, t), [NodeEvent(crypto, t)]);
      out := out + [KeyChunk(nkcyph, nk, kl)];
      MirrorsSet(crypto, keys, AddTree(crypto, f, t), lev, [], []);
      keys := keys[lev := []];
    }

    /** `finish`: the whole stream inline if it is small, else the keys of the topmost level
        that is left when all levels have been merged upwards. */
    method Finish(limit: nat) returns (info: OpaqueInfo)
      requires Valid() && CanFinish(s, limit)
      modifies this, buf
      ensures info == FinishInfo(crypto, old(s), limit)
      ensures out == FinishLog(crypto, old(s), limit)
    {
      var nrecs := |marks|;
      if nrecs > 1 && marks[nrecs - 1] == avail {
        nrecs := nrecs - 1;
      }
      if |keys| == 0 && DirectSize(avail, nrecs) <= limit {
        InlineInfo(s);
        return Direct(buf[..avail], nrecs);
      }
      FlushedPieces(s);
      if avail > 0 {
        DoChunk();
      }
      info := MergeKeys(limit, s.pieces);
    }

    /** One round of the loop, with everything it keeps. */
    method MergeRound(lev: nat, limit: nat, ghost f: Forest, ghost total: seq<Event>)
      requires lev < |f| && ForestOk(f, lev) && Mirrors(crypto, keys, f) && limit >= IndirectSize(1)
      requires !Done(f, lev, limit) && out + MergeEvents(crypto, f, lev, limit) == total
      modifies `keys, `out
      ensures var f' := MergeLevel(crypto, f, lev);
              Mirrors(crypto, keys, f') && out + MergeEvents(crypto, f', lev + 1, limit) == total
    {
      MergeLevelKeeps(crypto, f, lev);
      ghost var events := out;
      MergeOne(lev, f);
      ghost var t := Node(f[lev]);
      Assoc(events, AddEvents(crypto, f, t) + [NodeEvent(crypto, t)],
                MergeEvents(crypto, MergeLevel(crypto, f, lev), lev + 1, limit));
    }

    method MergeKeys(limit: nat, ghost ps: seq<Piece>) returns (info: OpaqueInfo)
      requires PiecesOk(ps) && ps != [] && limit >= IndirectSize(1)
      requires Mirrors(crypto, keys, Grow(crypto, ps)) && out == Log(crypto, ps)
      modifies `keys, `out
      ensures info == Indirect(KeysOf(crypto, MergeUp(crypto, Grow(crypto, ps), 0, limit)))
      ensures out == Log(crypto, ps) + MergeEvents(crypto, Grow(crypto, ps), 0, limit)
    {
      ghost var top := MergeUp(crypto, Grow(crypto, ps), 0, limit);
      ghost var total := Log(crypto, ps) + MergeEvents(crypto, Grow(crypto, ps), 0, limit);
      ghost var f := Grow(crypto, ps);
      var lev := 0;
      while !(IndirectSize(|keys[lev]|) <= limit && lev == |keys| - 1)
        invariant 0 <= lev < |f| && ForestOk(f, lev) && Mirrors(crypto, keys, f)
        invariant MergeUp(crypto, f, lev, limit) == top
        invariant out + MergeEvents(crypto, f, lev, limit) == total
        decreases KeysFrom(f, lev), |f| - lev
      {
        MergeLevelKeeps(crypto, f, lev);
        MergeRound(lev, limit, f, total);
        f := MergeLevel(crypto, f, lev);
        lev := lev + 1;
      }
      Nothing(out);
      info := Indirect(keys[lev]);
      keys := [];
    }
  }
}
