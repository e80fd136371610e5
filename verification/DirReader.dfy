/** Rebuilding a directory from the chunks of its entries, in whatever order they arrive. */
module DirReader {
  import opened Bytes
  import opened FileMeta
  import opened Reading
  import Xdr

  /** Record numbers of the entries known so far, and the entries themselves, in order. */
  datatype Listed = Listed(recs: seq<nat>, subs: seq<FileInfo>)

  const NOTHING := Listed([], [])

  ghost predicate Sorted(recs: seq<nat>) { forall i, j :: 0 <= i < j < |recs| ==> recs[i] < recs[j] }

  /** Where record `recno` goes: behind all smaller ones. */
  function Pos(recs: seq<nat>, recno: nat): (pos: nat)
    ensures pos <= |recs|
  {
    if recs == [] then 0
    else if recs[|recs| - 1] < recno then |recs|
    else Pos(recs[..|recs| - 1], recno)
  }

  ghost predicate IsPos(recs: seq<nat>, recno: nat, pos: nat) {
    pos <= |recs| && (forall i :: 0 <= i < pos ==> recs[i] < recno) &&
    (forall i :: pos <= i < |recs| ==> recno <= recs[i])
  }

  lemma {:induction false} PosIsPos(recs: seq<nat>, recno: nat)
    requires Sorted(recs)
    ensures IsPos(recs, recno, Pos(recs, recno))
  {
    if recs != [] && recs[|recs| - 1] >= recno {
      PosIsPos(recs[..|recs| - 1], recno);
    }
  }

  lemma PosUnique(recs: seq<nat>, recno: nat, pos: nat)
    requires Sorted(recs) && IsPos(recs, recno, pos)
    ensures pos == Pos(recs, recno)
  {
    PosIsPos(recs, recno);
    var p := Pos(recs, recno);
    assert !(p < |recs| && recs[p] < recno);
    assert !(pos < |recs| && recs[pos] < recno);
  }

  function Range(from: nat, n: nat): (r: seq<nat>)
    ensures |r| == n && forall i :: 0 <= i < n ==> r[i] == from + i
  {
    seq(n, i => from + i)
  }

  type Decoder = bytes -> Xdr.Read<FileInfo>

  /** The entries in a block, up to the first that cannot be decoded. */
  function Decoded(dec: Decoder, data: bytes, n: nat): (fil: seq<FileInfo>)
    ensures |fil| <= n
    decreases n
  {
    if n == 0 then [] else
      match dec(data)
      case Bad => []
      case Got(f, rest) => [f] + Decoded(dec, rest, n - 1)
  }

  function Insert<T>(q: seq<T>, pos: nat, x: seq<T>): seq<T>
    requires pos <= |q|
  {
    q[..pos] + x + q[pos..]
  }

  /** `gotData2`: the entries of one block go where they belong. */
  function AddBlock(d: Listed, recno: nat, fil: seq<FileInfo>): Listed {
    var pos := Pos(d.recs, recno);
    Listed(Insert(d.recs, pos, Range(recno, |fil|)),
           if pos <= |d.subs| then Insert(d.subs, pos, fil) else d.subs)
  }

  /** All blocks delivered so far, in the order of arrival. */
  function ListAll(dec: Decoder, gs: seq<Part>): Listed {
    if gs == [] then NOTHING else
      var g := gs[|gs| - 1];
      AddBlock(ListAll(dec, gs[..|gs| - 1]), g.recno, Decoded(dec, g.data, g.recs))
  }

  // ----- the reader -----

  class Reader {
    var recs: seq<nat>
    var subs: seq<FileInfo>

    function View(): Listed
      reads this
    {
      Listed(recs, subs)
    }

    constructor ()
      ensures View() == NOTHING
    {
      recs, subs := [], [];
    }

    /** `findPos`: binary search. */
    method FindPos(recno: nat) returns (lo: nat)
      requires Sorted(recs)
      ensures IsPos(recs, recno, lo) && lo == Pos(recs, recno)
    {
      lo := 0;
      var hi := |recs|;
      while hi > lo
        invariant 0 <= lo <= hi <= |recs|
        invariant forall i :: 0 <= i < lo ==> recs[i] < recno
        invariant forall i :: hi <= i < |recs| ==> recno <= recs[i]
      {
        var mid := (hi + lo) / 2;
        if recs[mid] < recno {
          lo := mid + 1;
        } else {
          hi := mid;
        }
      }
      PosUnique(recs, recno, lo);
    }

    /** The decoding loop of `gotData2`. */
    method DecodeBlock(data: bytes, nrecs: nat) returns (fil: seq<FileInfo>)
      ensures fil == Decoded(GetFileInfo, data, nrecs)
    {
      fil := [];
      var rest, i := data, 0;
      assert [] + Decoded(GetFileInfo, data, nrecs) == Decoded(GetFileInfo, data, nrecs);
      while i < nrecs
        invariant 0 <= i <= nrecs && fil + Decoded(GetFileInfo, rest, nrecs - i) == Decoded(GetFileInfo, data, nrecs)
      {
        var f := Decode(rest);
        DecodedStep(GetFileInfo, fil, rest, nrecs - i, f);
        if f.Bad? {
          assert fil + [] == fil;
          return;
        }
        fil := fil + [f.value];
        rest := f.rest;
        i := i + 1;
      }
      assert fil + [] == fil;
    }

    /** The insertion loop of `gotData2`. */
    method InsertRecs(pos: nat, recno: nat, n: nat)
      requires pos <= |recs|
      modifies `recs
      ensures recs == Insert(old(recs), pos, Range(recno, n))
    {
      ghost var recs0 := recs;
      var i := 0;
      assert recs0 == Insert(recs0, pos, Range(recno, 0));
      while i < n
        invariant 0 <= i <= n && recs == Insert(recs0, pos, Range(recno, i))
      {
        InsertNext(recs0, pos, Range(recno, i), recno + i);
        recs := recs[..pos + i] + [recno + i] + recs[pos + i..];
        assert Range(recno, i) + [recno + i] == Range(recno, i + 1);
        i := i + 1;
      }
    }

    /** `gotData2`, for a block none of whose records is known yet. The client inserts the entries
        at the same place. */
    method GotData2(recno: nat, data: bytes, nrecs: nat)
      requires Sorted(recs) && |recs| == |subs|
      requires forall k :: 0 <= k < |recs| ==> !(recno <= recs[k] < recno + |Decoded(GetFileInfo, data, nrecs)|)
      modifies this
      ensures View() == AddBlock(old(View()), recno, Decoded(GetFileInfo, data, nrecs))
    {
      var fil := DecodeBlock(data, nrecs);
      var pos := FindPos(recno);
      assert pos < |recs| ==> recs[pos] >= recno + |fil|;
      InsertRecs(pos, recno, |fil|);
      subs := Insert(subs, pos, fil);
    }
  }

  lemma DecodedStep(dec: Decoder, fil: seq<FileInfo>, rest: bytes, n: nat, f: Xdr.Read<FileInfo>)
    requires n > 0 && f == dec(rest)
    ensures fil + Decoded(dec, rest, n) == if f.Bad? then fil + [] else (fil + [f.value]) + Decoded(dec, f.rest, n - 1)
  {
  }

  lemma InsertNext<T>(q: seq<T>, pos: nat, x: seq<T>, y: T)
    requires pos <= |q|
    ensures var r := Insert(q, pos, x);
            pos + |x| <= |r| && r[..pos + |x|] + [y] + r[pos + |x|..] == Insert(q, pos, x + [y])
  {
  }

  // ----- any order of arrival -----

  predicate HoldsRec(g: Part, r: nat) { g.recno <= r < g.recno + g.recs }

  /** The block holds these entries of the directory. */
  ghost predicate BlockOk(dec: Decoder, g: Part, es: seq<FileInfo>) {
    0 < g.recs && g.recno + g.recs <= |es| && Decoded(dec, g.data, g.recs) == es[g.recno..g.recno + g.recs]
  }

  predicate RecsApart(a: Part, b: Part) { a.recno + a.recs <= b.recno || b.recno + b.recs <= a.recno }

  /** Blocks of the directory, no two with a common entry. */
  ghost predicate Blocks(dec: Decoder, gs: seq<Part>, es: seq<FileInfo>) {
    (forall i :: 0 <= i < |gs| ==> BlockOk(dec, gs[i], es)) &&
    (forall i, j :: 0 <= i < j < |gs| ==> RecsApart(gs[i], gs[j]))
  }

  ghost predicate Present(gs: seq<Part>, r: nat) { exists i :: 0 <= i < |gs| && HoldsRec(gs[i], r) }

  ghost predicate Has(recs: seq<nat>, r: nat) { exists i :: 0 <= i < |recs| && recs[i] == r }

  /** The list is sorted, and every entry is that of the directory. */
  ghost predicate Faithful(d: Listed, es: seq<FileInfo>) {
    Sorted(d.recs) && |d.subs| == |d.recs| &&
    (forall i :: 0 <= i < |d.recs| ==> d.recs[i] < |es| && d.subs[i] == es[d.recs[i]])
  }

  /** The list has the entries of these blocks, in their order, and no others. */
  ghost predicate Partial(d: Listed, gs: seq<Part>, es: seq<FileInfo>) {
    Faithful(d, es) && SameRecs(d.recs, gs)
  }

  ghost predicate SameRecs(recs: seq<nat>, gs: seq<Part>) { forall r :: Has(recs, r) <==> Present(gs, r) }

  lemma InsertedAt<T>(q: seq<T>, pos: nat, x: seq<T>)
    requires pos <= |q|
    ensures |Insert(q, pos, x)| == |q| + |x|
    ensures forall i :: 0 <= i < pos ==> Insert(q, pos, x)[i] == q[i]
    ensures forall i :: pos <= i < pos + |x| ==> Insert(q, pos, x)[i] == x[i - pos]
    ensures forall i :: pos + |x| <= i < |q| + |x| ==> Insert(q, pos, x)[i] == q[i - |x|]
  {
  }

  /** No entry behind `pos` is in the block. */
  ghost predicate Fresh(recs: seq<nat>, recno: nat, n: nat, pos: nat) {
    IsPos(recs, recno, pos) && forall i :: pos <= i < |recs| ==> recno + n <= recs[i]
  }

  lemma InsertFaithful(d: Listed, recno: nat, n: nat, pos: nat, es: seq<FileInfo>)
    requires Faithful(d, es) && Fresh(d.recs, recno, n, pos) && recno + n <= |es|
    ensures Faithful(Listed(Insert(d.recs, pos, Range(recno, n)), Insert(d.subs, pos, es[recno..recno + n])), es)
  {
    InsertedAt(d.recs, pos, Range(recno, n));
    InsertedAt(d.subs, pos, es[recno..recno + n]);
  }

  lemma InsertHas(recs: seq<nat>, recno: nat, n: nat, pos: nat, r: nat)
    requires pos <= |recs|
    ensures Has(Insert(recs, pos, Range(recno, n)), r) <==> Has(recs, r) || recno <= r < recno + n
  {
    var q := Insert(recs, pos, Range(recno, n));
    InsertedAt(recs, pos, Range(recno, n));
    if Has(recs, r) {
      var i :| 0 <= i < |recs| && recs[i] == r;
      assert q[if i < pos then i else i + n] == r;
    }
    if recno <= r < recno + n {
      assert q[pos + (r - recno)] == r;
    }
  }

  lemma PresentSnoc(gs: seq<Part>, g: Part, r: nat)
    ensures Present(gs + [g], r) <==> Present(gs, r) || HoldsRec(g, r)
  {
    if Present(gs, r) {
      var i :| 0 <= i < |gs| && HoldsRec(gs[i], r);
      assert (gs + [g])[i] == gs[i];
    }
    if HoldsRec(g, r) {
      assert (gs + [g])[|gs|] == g;
    }
  }

  lemma BlockFresh(d: Listed, gs: seq<Part>, g: Part, es: seq<FileInfo>)
    requires Partial(d, gs, es) && forall i :: 0 <= i < |gs| ==> RecsApart(gs[i], g)
    requires g.recs > 0
    ensures Fresh(d.recs, g.recno, g.recs, Pos(d.recs, g.recno))
  {
    var pos := Pos(d.recs, g.recno);
    PosIsPos(d.recs, g.recno);
    forall i | pos <= i < |d.recs| ensures g.recno + g.recs <= d.recs[i] {
      assert Has(d.recs, d.recs[i]);
      var k :| 0 <= k < |gs| && HoldsRec(gs[k], d.recs[i]);
    }
  }

  /** One block more. */
  lemma AddBlockPartial(d: Listed, gs: seq<Part>, g: Part, es: seq<FileInfo>)
    requires Partial(d, gs, es) && 0 < g.recs && g.recno + g.recs <= |es|
    requires forall i :: 0 <= i < |gs| ==> RecsApart(gs[i], g)
    ensures Partial(AddBlock(d, g.recno, es[g.recno..g.recno + g.recs]), gs + [g], es)
  {
    var pos := Pos(d.recs, g.recno);
    BlockFresh(d, gs, g, es);
    InsertFaithful(d, g.recno, g.recs, pos, es);
    SameRecsSnoc(d.recs, gs, g, pos);
  }

  lemma SameRecsSnoc(recs: seq<nat>, gs: seq<Part>, g: Part, pos: nat)
    requires SameRecs(recs, gs) && pos <= |recs|
    ensures SameRecs(Insert(recs, pos, Range(g.recno, g.recs)), gs + [g])
  {
    forall r ensures Has(Insert(recs, pos, Range(g.recno, g.recs)), r) <==> Present(gs + [g], r) {
      InsertHas(recs, g.recno, g.recs, pos, r);
      PresentSnoc(gs, g, r);
    }
  }

  lemma BlocksInit(dec: Decoder, gs: seq<Part>, es: seq<FileInfo>) returns (hs: seq<Part>, g: Part)
    requires Blocks(dec, gs, es) && gs != []
    ensures hs == gs[..|gs| - 1] && g == gs[|gs| - 1] && gs == hs + [g]
    ensures Blocks(dec, hs, es) && BlockOk(dec, g, es) && forall i :: 0 <= i < |hs| ==> RecsApart(hs[i], g)
  {
    hs, g := gs[..|gs| - 1], gs[|gs| - 1];
  }

  /** At every moment the list is sorted and has exactly the entries delivered so far. */
  lemma {:induction false} ListAllPartial(dec: Decoder, gs: seq<Part>, es: seq<FileInfo>)
    requires Blocks(dec, gs, es)
    ensures Partial(ListAll(dec, gs), gs, es)
  {
    if gs != [] {
      var hs, g := BlocksInit(dec, gs, es);
      ListAllPartial(dec, hs, es);
      AddBlockPartial(ListAll(dec, hs), hs, g, es);
    }
  }

  /** Increasing numbers among which are all those below `n`, and no others. */
  lemma {:induction false} AllThere(recs: seq<nat>, n: nat)
    requires Sorted(recs) && forall i :: 0 <= i < |recs| ==> recs[i] < n
    requires forall r :: 0 <= r < n ==> Has(recs, r)
    ensures recs == Range(0, n)
    decreases n
  {
    if n > 0 {
      var m := |recs| - 1;
      assert Has(recs, n - 1);
      assert recs[m] == n - 1;
      forall r | 0 <= r < n - 1 ensures Has(recs[..m], r) {
        assert Has(recs, r);
        var i :| 0 <= i < |recs| && recs[i] == r;
        assert recs[..m][i] == r;
      }
      AllThere(recs[..m], n - 1);
      assert recs == recs[..m] + [n - 1];
    }
  }

  /** When all blocks have arrived, in any order, the list is the directory. */
  lemma ListAllIsDirectory(dec: Decoder, gs: seq<Part>, es: seq<FileInfo>)
    requires Blocks(dec, gs, es) && forall r :: 0 <= r < |es| ==> Present(gs, r)
    ensures ListAll(dec, gs) == Listed(Range(0, |es|), es)
  {
    ListAllPartial(dec, gs, es);
    AllThere(ListAll(dec, gs).recs, |es|);
  }
}
