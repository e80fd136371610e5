/** The archive as it is written: a file that is only appended to, and an index in memory. */
module Archives {
  import opened Bytes
  import opened OpaqueMeta
  import opened ArchiveLog
  import Xdr

  class Archive {
    const crypto: Crypto

    var file: bytes
    var readpos: nat
    var readidx: nat
    var chunks: seq<nat>
    var chash: seq<(u64, nat)>

    // The chunks in the file, in order
    ghost var ds: seq<bytes>

    /** The file is the log of its chunks, and the index that of those scanned so far. */
    ghost predicate Valid()
      reads this
    {
      file == Log(crypto, ds) && AllWritable(ds) && Addressable(ds) && readidx <= |ds| &&
      readpos == Pos(ds, readidx) && Index(chunks, chash) == IndexOf(crypto, ds, readidx)
    }

    /** A new archive begins with a chunk that holds its signature. */
    constructor (c: Crypto)
      ensures Valid() && crypto == c && ds == [Xdr.PutU32(ARCHSIG)] && readidx == 1
    {
      crypto := c;
      file, readpos, readidx, chunks, chash, ds := [], 0, 0, [], [], [];
      new;
      var h := WriteChunk(Xdr.PutU32(ARCHSIG));
    }

    /** `scan`: indexes what has been appended since. */
    method Scan()
      requires Valid()
      modifies `readpos, `readidx, `chunks, `chash
      ensures Valid() && readidx == |ds| && Some(Index(chunks, chash)) == FreshScan(file)
    {
      LogLength(crypto, ds);
      ScanIsIndex(crypto, ds, 0);
      while readpos < |file|
        invariant Valid()
        decreases |ds| - readidx
      {
        ScanOne();
      }
      EndReached();
    }

    /** The next chunk. A header that cannot be read would be a corrupt archive. */
    method ScanOne()
      requires Valid() && readpos < |file|
      modifies `readpos, `readidx, `chunks, `chash
      ensures Valid() && readidx == old(readidx) + 1
    {
      NextChunk();
      var h := ReadHeader(file, readpos).value;
      chunks := chunks + [readpos];
      chash := [(h.check, readidx)] + chash;
      readpos := readpos + HDRSIZE + h.size;
      readidx := readidx + 1;
    }

    lemma NextChunk()
      requires Valid() && readpos < |file|
      ensures readidx < |ds|
      ensures ReadHeader(file, readpos) == Some(Head(CheckOf(crypto, ds[readidx]), |ds[readidx]|))
    {
      LogLength(crypto, ds);
      ChunkAt(crypto, ds, readidx);
    }

    lemma EndReached()
      requires Valid() && readpos >= |file|
      ensures readidx == |ds|
    {
      LogLength(crypto, ds);
      if readidx < |ds| {
        LogAt(crypto, ds, readidx);
      }
    }

    /** `readAt`, at the position of a chunk: that chunk, or nothing if it is not the one
        expected. Zero stands for no expectation. */
    method ReadAt(pos: nat, expcheck: u64, expsize: int, ghost idx: nat) returns (data: bytes)
      requires Valid() && idx < |ds| && pos == Pos(ds, idx)
      ensures data == if AsExpected(crypto, ds[idx], expcheck, expsize) then ds[idx] else []
    {
      ChunkAt(crypto, ds, idx);
      var h := ReadHeader(file, pos);
      if h == None {
        return [];
      }
      var check, size := h.value.check, h.value.size;
      if expsize != 0 && size != expsize {
        return [];
      }
      if expcheck != 0 && check != expcheck {
        return [];
      }
      data := file[pos + HDRSIZE..pos + HDRSIZE + size];
    }

    /** The chunk of a given number, if it meets the expectations. */
    method ReadIndexed(idx: nat, expcheck: u64, expsize: int) returns (data: bytes)
      requires Valid() && idx < readidx
      ensures var d := ds[idx];
              data == if (expcheck == 0 || expcheck == crypto.check(crypto.sha512(d))) &&
                         (expsize == 0 || expsize == |d|) then d else []
    {
      IndexAt(crypto, ds, readidx, idx);
      data := ReadAt(chunks[idx], expcheck, expsize, idx);
    }

    /** `readChunk`: tries every chunk with the right 64-bit check, so a collision of checks does
        not matter: a scanned chunk with the hash and the size is found exactly if there is one. */
    method ReadChunk(ohash: OuterHash, expsize: int) returns (data: bytes)
      requires Valid()
      ensures data != [] <==> Known(crypto, ds, readidx, ohash, expsize)
      ensures data != [] <==>
              exists d :: d in ds[..readidx] && crypto.sha512(d) == ohash && (expsize == 0 || expsize == |d|)
      ensures data != [] ==>
                data in ds[..readidx] && crypto.sha512(data) == ohash && (expsize == 0 || expsize == |data|)
      ensures NoCollision(crypto, ds) ==>
                forall i :: 0 <= i < readidx && Matches(crypto, ds[i], ohash, expsize) ==> data == ds[i]
    {
      var check := crypto.check(ohash);
      var i := 0;
      while i < |chash|
        invariant 0 <= i <= |chash| == readidx
        invariant forall j :: readidx - i <= j < readidx ==> !Matches(crypto, ds[j], ohash, expsize)
      {
        IndexAt(crypto, ds, readidx, readidx - 1 - i);
        if chash[i].0 == check {
          data := ReadIndexed(chash[i].1, check, expsize);
          if data != [] && crypto.sha512(data) == ohash {
            assert data == ds[..readidx][readidx - 1 - i];
            return;
          }
        }
        i := i + 1;
      }
      return [];
    }

    /** `readStore` leaves the size at its default of -1, which no chunk has: it finds nothing. */
    method ReadStore(ohash: OuterHash) returns (data: bytes)
      requires Valid()
      ensures data == []
    {
      data := ReadChunk(ohash, -1);
    }

    /** One append. Another process may have the file open and do the same. */
    method Append(data: bytes)
      requires Valid() && Writable(data) && Addressable(ds + [data])
      modifies `file, `ds
      ensures Valid() && ds == old(ds) + [data]
    {
      ghost var ds0 := ds;
      file := file + (PutHeader(crypto, data) + data);
      ds := ds0 + [data];
      assert ds[..|ds| - 1] == ds0;
      PosPrefix(ds0, ds, readidx);
      IndexPrefix(crypto, ds0, ds, readidx);
    }

    /** `writeChunk`: a chunk that is there already is not written again, and the check after
        writing never fails. */
    method WriteChunk(data: bytes) returns (ohash: OuterHash)
      requires Valid() && Writable(data) && Addressable(ds + [data])
      modifies this
      ensures Valid() && ohash == crypto.sha512(data) && readidx == |ds|
      ensures ds == AfterWrite(crypto, old(ds), data)
      ensures StoredOnce(crypto, old(ds)) ==> StoredOnce(crypto, ds)
      ensures Some(Index(chunks, chash)) == FreshScan(file)
    {
      ghost var ds0 := ds;
      ohash := crypto.sha512(data);
      Scan();
      var present := ReadChunk(ohash, |data|);
      if present != [] {
        return;
      }
      Append(data);
      Scan();
      OnceMore(crypto, ds0, data);
      var verified := ReadChunk(ohash, |data|);
      assert verified != [];
    }
  }

  // ----- a client -----

  /** Writes any chunks, in any order and as often as one likes. */
  method WriteAll(a: Archive, written: seq<bytes>)
    requires a.Valid() && AllWritable(written) && Addressable(a.ds + written)
    modifies a
    ensures a.Valid() && a.readidx == |a.ds| && a.ds == AfterWrites(a.crypto, old(a.ds), written)
  {
    ghost var ds0 := a.ds;
    a.Scan();
    var k := 0;
    while k < |written|
      invariant 0 <= k <= |written|
      invariant a.Valid() && a.readidx == |a.ds| && a.ds == AfterWrites(a.crypto, ds0, written[..k])
    {
      RoomForNext(a.crypto, ds0, written, k);
      var h := a.WriteChunk(written[k]);
      assert written[..k + 1][..k] == written[..k];
      k := k + 1;
    }
    assert written[..k] == written;
  }

  /** A chunk of the log comes back by its hash and size. */
  method ReadBack(a: Archive, d: bytes) returns (back: bytes)
    requires a.Valid() && a.readidx == |a.ds| && NoCollision(a.crypto, a.ds) && OnceIn(a.ds, d)
    ensures back == d
  {
    ghost var i: nat := PlaceOf(a.ds, d);
    assert Matches(a.crypto, a.ds[i], a.crypto.sha512(d), |d|);
    back := a.ReadChunk(a.crypto.sha512(d), |d|);
  }

  method ReadAllBack(a: Archive, written: seq<bytes>) returns (back: seq<bytes>)
    requires a.Valid() && a.readidx == |a.ds| && NoCollision(a.crypto, a.ds) && AllOnceIn(a.ds, written)
    ensures back == written
  {
    back := [];
    while |back| < |written|
      invariant |back| <= |written| && back == written[..|back|]
    {
      assert OnceIn(a.ds, written[|back|]);
      var d := ReadBack(a, written[|back|]);
      back := back + [d];
    }
  }

  /** Every one of them is there afterwards, once, and comes back by its hash and size. */
  method WriteAndReadBack(a: Archive, written: seq<bytes>) returns (back: seq<bytes>)
    requires a.Valid() && AllWritable(written) && Addressable(a.ds + written)
    requires StoredOnce(a.crypto, a.ds) && NoCollision(a.crypto, a.ds + written)
    modifies a
    ensures a.Valid() && StoredOnce(a.crypto, a.ds) && AllOnceIn(a.ds, written) && back == written
  {
    AllWritesStoredOnce(a.crypto, a.ds, written);
    WriteAll(a, written);
    back := ReadAllBack(a, written);
  }
}
