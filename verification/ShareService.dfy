/** Chunk sharing as it is written: request and peer records updated in place. Every handler does
    what its event does to the transition system. */
module ShareService {
  import opened Bytes
  import opened Listing
  import opened ChunkShare
  import opened ShareSafety
  import opened ShareScheduling

  class PeerRecord {
    var wishlist: set<Hash>
    var current: Hash

    constructor ()
      ensures wishlist == {} && current == NONE
    {
      wishlist, current := {}, NONE;
    }
  }

  class RequestRecord {
    var readers: set<ReaderId>
    var potentials: set<PeerId>
    var status: map<PeerId, int>

    constructor (r: ReaderId)
      ensures readers == {r} && potentials == {} && status == map[]
    {
      readers, potentials, status := {r}, {}, map[];
    }
  }

  class Service {
    const sha: bytes -> Hash

    var peers: map<PeerId, PeerRecord>
    var requests: map<Hash, RequestRecord>
    var links: set<PeerId>
    var log: seq<Entry>

    // The state of the transition system that the records stand for
    ghost var share: Share

    /** Every peer and every request has its own record. */
    ghost predicate Apart()
      reads `peers, `requests
    {
      (forall p, q :: p in peers && q in peers && p != q ==> peers[p] != peers[q]) &&
      (forall g, h :: g in requests && h in requests && g != h ==> requests[g] != requests[h])
    }

    ghost predicate PeersLinked()
      reads `peers, `share, peers.Values
    {
      share.peers.Keys == peers.Keys &&
      forall p :: p in peers ==> share.peers[p] == Peer(peers[p].wishlist, peers[p].current)
    }

    ghost predicate RequestsLinked()
      reads `requests, `share, requests.Values
    {
      share.requests.Keys == requests.Keys &&
      forall h :: h in requests ==>
        share.requests[h] == Request(requests[h].readers, requests[h].potentials, requests[h].status)
    }

    /** The records are those of the transition system. */
    ghost predicate Linked()
      reads this, peers.Values, requests.Values
    {
      Apart() && PeersLinked() && RequestsLinked() && share.links == links && share.log == log
    }

    ghost predicate Valid()
      reads this, peers.Values, requests.Values
    {
      Linked() && Inv(share, sha)
    }

    constructor (sha: bytes -> Hash)
      ensures Valid() && this.sha == sha && share == EMPTY
    {
      this.sha := sha;
      peers, requests, links, log := map[], map[], {}, [];
      share := EMPTY;
      new;
      NothingYet(EMPTY, sha);
    }

    // ----- asking -----

    /** `send_status_request`. */
    method SendStatusRequest(p: PeerId, h: Hash)
      requires Linked() && h in requests
      modifies `log, `share, requests[h]
      ensures Linked() && share == SendStatus(old(share), p, h)
    {
      if p !in links {
        return;
      }
      var req := requests[h];
      log := log + [Asked(p, h)];
      req.potentials := req.potentials + {p};
      req.status := req.status[p := INVALID_STATUS];
      share := SendStatus(share, p, h);
    }

    method AskAllPeers(ps: seq<PeerId>, h: Hash)
      requires Linked() && h in requests
      modifies `log, `share, requests[h]
      ensures Linked() && share == AskPeers(old(share), ps, h)
    {
      ghost var s0 := share;
      var i := 0;
      while i < |ps|
        invariant 0 <= i <= |ps| && Linked() && share == AskPeers(s0, ps[..i], h)
      {
        assert ps[..i + 1][..i] == ps[..i];
        SendStatusRequest(ps[i], h);
        i := i + 1;
      }
      assert ps[..i] == ps;
    }

    lemma ValuesAdd<K, V>(m: map<K, V>, k: K, v: V)
      requires k !in m
      ensures m[k := v].Values == m.Values + {v}
    {
      var n := m[k := v];
      assert k in n && n[k] == v;
      forall x | x in m.Values ensures x in n.Values {
        var g :| g in m && m[g] == x;
        assert g in n && n[g] == x;
      }
    }

    /** Creates a request with its first reader. */
    method CreateRequest(r: ReaderId, h: Hash)
      requires Linked() && h !in requests
      modifies `requests, `log, `share
      ensures Linked() && h in requests && requests.Values == old(requests.Values) + {requests[h]}
      ensures fresh(requests[h]) && share == AddReader(old(share), r, h)
    {
      var req := new RequestRecord(r);
      ValuesAdd(requests, h, req);
      requests := requests[h := req];
      log := log + [Opened(r, h)];
      share := AddReader(share, r, h);
    }

    method AddReaderTo(r: ReaderId, h: Hash)
      requires Linked() && h in requests
      modifies requests[h], `log, `share
      ensures Linked() && share == AddReader(old(share), r, h)
    {
      var req := requests[h];
      if r !in req.readers {
        log := log + [Opened(r, h)];
      }
      req.readers := req.readers + {r};
      share := AddReader(share, r, h);
    }

    /** Finds or creates the request and registers the reader. */
    method Register(r: ReaderId, h: Hash)
      requires Linked()
      modifies `requests, `log, `share, requests.Values
      ensures Linked() && h in requests && fresh(requests.Values - old(requests.Values))
      ensures share == AddReader(old(share), r, h)
    {
      if h in requests {
        AddReaderTo(r, h);
      } else {
        CreateRequest(r, h);
      }
    }

    /** `request_chunk`. */
    method GotRequest(r: ReaderId, h: Hash, o: Order)
      requires Valid() && h != NONE
      modifies `requests, `log, `share, requests.Values
      ensures Valid() && fresh(requests.Values - old(requests.Values))
      ensures share == RequestChunk(old(share), r, h, o)
    {
      HandleInv(share, EvRequest(r, h, o), sha);
      Register(r, h);
      AskAllPeers(o.peers(peers.Keys), h);
    }

    // ----- answering -----

    method TellReaders(rs: seq<ReaderId>, h: Hash, data: Option<bytes>)
      modifies `log
      ensures log == TellAll(old(log), rs, h, data)
    {
      var i := 0;
      while i < |rs|
        invariant 0 <= i <= |rs| && log == TellAll(old(log), rs[..i], h, data)
      {
        assert rs[..i + 1][..i] == rs[..i];
        log := log + [Answered(rs[i], h, data)];
        i := i + 1;
      }
      assert rs[..i] == rs;
    }

    /** The request is removed before its readers are told that there is no data. */
    method GiveUpOn(h: Hash, o: Order)
      requires Linked() && h in requests
      modifies `requests, `log, `share
      ensures Linked() && requests == old(requests) - {h} && requests.Values <= old(requests.Values)
      ensures share == Close(old(share), h, None, o)
    {
      var req := requests[h];
      requests := requests - {h};
      TellReaders(o.readers(req.readers), h, None);
      share := Close(share, h, None, o);
    }

    /** `check_request`. */
    method CheckRequest(h: Hash, o: Order)
      requires Linked() && h in requests
      modifies `requests, `log, `share
      ensures Linked() && requests.Values <= old(requests.Values)
      ensures share == ChunkShare.CheckRequest(old(share), h, o)
    {
      if requests[h].potentials != {} {
        return;
      }
      GiveUpOn(h, o);
    }

    // ----- scheduling -----

    /** Is anyone downloading this chunk? */
    method IsTaken(h: Hash, o: Order) returns (found: bool)
      requires Linked()
      ensures found <==> Taken(share, h)
    {
      var ps := o.peers(peers.Keys);
      assert Lists(ps, peers.Keys);
      var i := 0;
      while i < |ps|
        invariant 0 <= i <= |ps|
        invariant forall j :: 0 <= j < i ==> peers[ps[j]].current != h
      {
        assert ps[i] in ps;
        if peers[ps[i]].current == h {
          assert share.peers[ps[i]].current == h;
          return true;
        }
        i := i + 1;
      }
      forall p | p in share.peers ensures share.peers[p].current != h {
        assert p in peers.Keys && p in ps;
      }
      return false;
    }

    method DropWish(p: PeerId, h: Hash)
      requires Linked() && p in peers
      modifies peers[p], `share
      ensures var s := old(share);
              Linked() && share == s.(peers := s.peers[p := s.peers[p].(wishlist := s.peers[p].wishlist - {h})])
    {
      peers[p].wishlist := peers[p].wishlist - {h};
      share := share.(peers := share.peers[p := share.peers[p].(wishlist := share.peers[p].wishlist - {h})]);
    }

    /** Looks at one chunk of a wishlist: true if it can be downloaded now. */
    method Consider(p: PeerId, h: Hash, o: Order) returns (free: bool)
      requires Linked() && p in peers
      modifies peers[p], `share
      ensures Linked() && (free <==> h in old(share).requests && !Taken(old(share), h))
      ensures var s := old(share);
              share == if h in s.requests then s
                       else s.(peers := s.peers[p := s.peers[p].(wishlist := s.peers[p].wishlist - {h})])
    {
      if h !in requests {
        DropWish(p, h);
        return false;
      }
      var found := IsTaken(h, o);
      return !found;
    }

    ghost function Started(s: Share, p: PeerId, h: Hash): Share
      requires p in s.peers
    {
      s.(peers := s.peers[p := s.peers[p].(current := h)], log := s.log + [Fetch(p, h)])
    }

    lemma SearchStep(s: Share, s': Share, p: PeerId, wishes: seq<Hash>, free: bool)
      requires p in s.peers && wishes != [] && (free <==> wishes[0] in s.requests && !Taken(s, wishes[0]))
      requires s' == if wishes[0] in s.requests then s else
                       s.(peers := s.peers[p := s.peers[p].(wishlist := s.peers[p].wishlist - {wishes[0]})])
      ensures Search(s, p, wishes) == if free then Started(s', p, wishes[0]) else Search(s', p, wishes[1..])
    {
    }

    /** The search of `check_work`: the first chunk on the list that is needed and not taken. */
    method Select(p: PeerId, wishes: seq<Hash>, o: Order) returns (selhash: Hash)
      requires Linked() && p in peers && forall h :: h in wishes ==> h != NONE
      modifies peers[p], `share
      ensures Linked()
      ensures Search(old(share), p, wishes) == if selhash == NONE then share else Started(share, p, selhash)
    {
      ghost var all := Search(share, p, wishes);
      selhash := NONE;
      var i := 0;
      assert wishes[0..] == wishes;
      while i < |wishes|
        invariant 0 <= i <= |wishes| && Linked()
        invariant Search(share, p, wishes[i..]) == all
      {
        var h := wishes[i];
        assert h in wishes && wishes[i..][1..] == wishes[i + 1..];
        ghost var before := share;
        var free := Consider(p, h, o);
        SearchStep(before, share, p, wishes[i..], free);
        if free {
          return h;
        }
        i := i + 1;
      }
    }

    method StartDownload(p: PeerId, h: Hash)
      requires Linked() && p in peers
      modifies peers[p], `log, `share
      ensures Linked() && share == Started(old(share), p, h)
    {
      log := log + [Fetch(p, h)];
      peers[p].current := h;
      share := Started(share, p, h);
    }

    /** `check_work`. */
    method CheckWork(p: PeerId, o: Order)
      requires Linked() && p in peers && NONE !in peers[p].wishlist
      modifies peers[p], `log, `share
      ensures Linked() && share == ChunkShare.CheckWork(old(share), p, o)
    {
      var peer := peers[p];
      if p !in links || peer.current != NONE || peer.wishlist == {} {
        return;
      }
      var wishes := o.hashes(peer.wishlist);
      assert Lists(wishes, peer.wishlist);
      var selhash := Select(p, wishes, o);
      if selhash == NONE {
        return;
      }
      StartDownload(p, selhash);
    }

    /** One step of `check_peers`. */
    method CheckNth(ps: seq<PeerId>, i: nat, o: Order, ghost s0: Share)
      requires Linked() && i < |ps| && ps[i] in peers && NONE !in peers[ps[i]].wishlist
      requires (forall p :: p in ps ==> p in s0.peers) && share == CheckEach(s0, ps[..i], o)
      modifies peers.Values, `log, `share
      ensures Linked() && share == CheckEach(s0, ps[..i + 1], o)
    {
      assert ps[..i + 1][..i] == ps[..i];
      CheckWork(ps[i], o);
    }

    lemma NoEmptyWish(s0: Share, ps: seq<PeerId>, i: nat, o: Order)
      requires Inv(s0, sha) && i < |ps| && (forall p :: p in ps ==> p in s0.peers)
      requires PeersLinked() && share == CheckEach(s0, ps[..i], o)
      ensures ps[i] in peers && NONE !in peers[ps[i]].wishlist
    {
      CheckEachInv(s0, ps[..i], o, sha);
      assert ps[i] in ps && ps[i] in peers.Keys;
    }

    /** `check_peers`. */
    method CheckAllPeers(o: Order)
      requires Valid()
      modifies peers.Values, `log, `share
      ensures Linked() && share == ChunkShare.CheckPeers(old(share), o)
    {
      ghost var s0 := share;
      var ps := o.peers(peers.Keys);
      assert Lists(ps, peers.Keys);
      var i := 0;
      while i < |ps|
        invariant 0 <= i <= |ps| && Linked() && share == CheckEach(s0, ps[..i], o)
      {
        NoEmptyWish(s0, ps, i, o);
        CheckNth(ps, i, o, s0);
        i := i + 1;
      }
      assert ps[..i] == ps;
    }

    // ----- messages -----

    method StoreStatus(p: PeerId, h: Hash, st: int)
      requires Linked() && h in requests
      modifies requests[h], `share
      ensures Linked() && share == SetStatus(old(share), p, h, st)
    {
      requests[h].status := requests[h].status[p := st];
      share := SetStatus(share, p, h, st);
    }

    method AddWish(p: PeerId, h: Hash)
      requires Linked() && p in peers
      modifies peers[p], `share
      ensures Linked() && share == Wish(old(share), p, h)
    {
      peers[p].wishlist := peers[p].wishlist + {h};
      share := Wish(share, p, h);
    }

    /** The peer is out for this chunk. The log entry says why. */
    method Drop(p: PeerId, h: Hash, e: Entry)
      requires Linked() && h in requests
      modifies requests[h], `log, `share
      ensures Linked() && share == Discount(old(share), p, h, e)
    {
      log := log + [e];
      requests[h].potentials := requests[h].potentials - {p};
      share := Discount(share, p, h, e);
    }

    /** A negative answer. */
    method Decline(p: PeerId, h: Hash, st: int, e: Entry, o: Order)
      requires Linked() && h in requests
      modifies `requests, `log, `share, requests[h]
      ensures Linked() && requests.Values <= old(requests.Values)
      ensures share == ChunkShare.CheckRequest(Discount(SetStatus(old(share), p, h, st), p, h, e), h, o)
    {
      StoreStatus(p, h, st);
      Drop(p, h, e);
      CheckRequest(h, o);
    }

    /** The peer has the chunk: it may be told to send it, or another one, at once. */
    method NoteOnline(p: PeerId, h: Hash, o: Order)
      requires Valid() && p in peers && h in requests
      modifies `log, `share, peers.Values, requests[h]
      ensures Linked() && WorkConserving(share)
      ensures share == CheckPeers(Wish(SetStatus(old(share), p, h, ONLINE_CHUNK), p, h), o)
    {
      WishInv(share, p, h, sha);
      StoreStatus(p, h, ONLINE_CHUNK);
      AddWish(p, h);
      Reschedule(o);
    }

    /** `got_status_reply`. */
    method GotStatusReply(p: PeerId, h: Hash, st: int, o: Order)
      requires Valid() && p in peers && h != NONE
      modifies `requests, `log, `share, peers.Values, requests.Values
      ensures Valid() && requests.Values <= old(requests.Values)
      ensures share == StatusReply(old(share), p, h, st, o)
      ensures st == ONLINE_CHUNK && h in old(requests) ==> WorkConserving(share)
    {
      HandleInv(share, EvStatusReply(p, h, st, o), sha);
      if h !in requests {
        return;
      }
      if st == ONLINE_CHUNK {
        NoteOnline(p, h, o);
      } else {
        Decline(p, h, st, Negative(p, h), o);
      }
    }

    method Undo(p: PeerId, h: Hash)
      requires Linked() && p in peers
      modifies peers[p], `share
      ensures Linked() && share == Unwish(old(share), p, h)
    {
      var peer := peers[p];
      peer.wishlist := peer.wishlist - {h};
      if peer.current == h {
        peer.current := NONE;
      }
      share := Unwish(share, p, h);
    }

    /** All readers get the data, and the request is complete. */
    method DeliverChunk(h: Hash, data: bytes, o: Order)
      requires Linked() && h in requests
      modifies `requests, `log, `share
      ensures Linked() && requests.Values <= old(requests.Values)
      ensures share == Close(old(share), h, Some(data), o)
    {
      TellReaders(o.readers(requests[h].readers), h, Some(data));
      requests := requests - {h};
      share := Close(share, h, Some(data), o);
    }

    /** The walk after a change, from a sound state. */
    method Reschedule(o: Order)
      requires Valid()
      modifies `log, `share, peers.Values
      ensures Linked() && WorkConserving(share) && share == CheckPeers(old(share), o)
    {
      CheckPeersConservesWork(share, o, sha);
      CheckAllPeers(o);
    }

    /** A good chunk: everybody gets it, and other downloads may start. */
    method AcceptChunk(h: Hash, data: bytes, o: Order)
      requires Valid() && h in requests && data != [] && sha(data) == h
      modifies `requests, `log, `share, peers.Values
      ensures Linked() && requests.Values <= old(requests.Values) && WorkConserving(share)
      ensures share == CheckPeers(Close(old(share), h, Some(data), o), o)
    {
      CloseInv(share, h, Some(data), o, sha);
      DeliverChunk(h, data, o);
      Reschedule(o);
    }

    /** `got_chunk_reply`. */
    method GotChunkReply(p: PeerId, h: Hash, data: bytes, o: Order)
      requires Valid() && p in peers && h != NONE
      modifies `requests, `log, `share, peers.Values, requests.Values
      ensures Valid() && requests.Values <= old(requests.Values)
      ensures share == ChunkReply(old(share), p, h, data, sha, o)
      ensures h in old(requests) && data != [] && sha(data) == h ==> WorkConserving(share)
    {
      HandleInv(share, EvChunkReply(p, h, data, o), sha);
      if h !in requests {
        return;
      }
      UnwishInv(share, p, h, sha);
      Undo(p, h);
      if data == [] || sha(data) != h {
        Decline(p, h, LOST_CHUNK, Failed(p, h), o);
      } else {
        AcceptChunk(h, data, o);
      }
    }

    // ----- connections -----

    method ClearStatus(p: PeerId, h: Hash)
      requires Linked() && h in requests
      modifies requests[h], `share
      ensures Linked() && share == ForgetStatus(old(share), p, h)
    {
      requests[h].status := requests[h].status - {p};
      share := ForgetStatus(share, p, h);
    }

    method Forget(p: PeerId, h: Hash, o: Order)
      requires Linked() && h in requests
      modifies `requests, `log, `share, requests[h]
      ensures Linked() && requests.Values <= old(requests.Values)
      ensures share == RemoveFrom(old(share), p, h, o)
    {
      ClearStatus(p, h);
      Drop(p, h, Gone(p, h));
      CheckRequest(h, o);
    }

    /** `remove_from_requests`. */
    method RemoveFromRequests(p: PeerId, hs: seq<Hash>, o: Order)
      requires Linked() && Distinct(hs) && forall h :: h in hs ==> h in requests
      modifies `requests, `log, `share, requests.Values
      ensures Linked() && requests.Values <= old(requests.Values)
      ensures share == RemoveFromEach(old(share), p, hs, o)
    {
      ghost var s0 := share;
      var i := 0;
      while i < |hs|
        invariant 0 <= i <= |hs| && Linked() && requests.Values <= old(requests.Values)
        invariant share == RemoveFromEach(s0, p, hs[..i], o)
      {
        assert hs[..i + 1][..i] == hs[..i] && hs[i] !in hs[..i] && hs[i] in hs;
        assert hs[i] in requests.Keys;
        Forget(p, hs[i], o);
        i := i + 1;
      }
      assert hs[..i] == hs;
    }

    /** `got_out_stream_disconnected`. */
    method GotOutStreamDisconnected(p: PeerId, o: Order)
      requires Valid()
      modifies `requests, `log, `share, requests.Values
      ensures Valid() && requests.Values <= old(requests.Values)
      ensures share == Disconnected(old(share), p, o)
    {
      HandleInv(share, EvDisconnected(p, o), sha);
      if p !in peers {
        return;
      }
      var hs := o.hashes(requests.Keys);
      assert hs == OpenRequests(share, o);
      RemoveFromRequests(p, hs, o);
    }

    method AskForAll(p: PeerId, hs: seq<Hash>)
      requires Linked() && forall h :: h in hs ==> h in requests
      modifies `log, `share, requests.Values
      ensures Linked() && share == AskFor(old(share), p, hs)
    {
      ghost var s0 := share;
      var i := 0;
      while i < |hs|
        invariant 0 <= i <= |hs| && Linked() && share == AskFor(s0, p, hs[..i])
      {
        assert hs[..i + 1][..i] == hs[..i] && hs[i] in hs;
        SendStatusRequest(p, hs[i]);
        i := i + 1;
      }
      assert hs[..i] == hs;
    }

    /** Finds or creates the peer's record. */
    method FindPeer(p: PeerId)
      requires Linked()
      modifies `peers, `share
      ensures Linked() && p in peers && (peers == old(peers) || fresh(peers[p]))
      ensures peers.Values == old(peers.Values) + {peers[p]}
      ensures share == InConnected(old(share), p)
    {
      if p !in peers {
        var peer := new PeerRecord();
        ValuesAdd(peers, p, peer);
        peers := peers[p := peer];
        share := InConnected(share, p);
      }
    }

    method ClearCurrent(p: PeerId)
      requires Linked() && p in peers
      modifies peers[p], `share
      ensures var s := old(share);
              Linked() && share == s.(peers := s.peers[p := Peer(s.peers[p].wishlist, NONE)])
    {
      peers[p].current := NONE;
      share := share.(peers := share.peers[p := Peer(share.peers[p].wishlist, NONE)]);
    }

    /** The peer starts over with its old wishlist. */
    method Restart(p: PeerId)
      requires Linked()
      modifies `peers, `share, peers.Values
      ensures Linked() && fresh(peers.Values - old(peers.Values))
      ensures var s := old(share);
              share == s.(peers := s.peers[p := Peer(if p in s.peers then s.peers[p].wishlist else {}, NONE)])
    {
      FindPeer(p);
      ClearCurrent(p);
    }

    /** The peer starts over and is asked for everything again. */
    method RestartAndAsk(p: PeerId, hs: seq<Hash>)
      requires Linked() && forall h :: h in hs ==> h in requests
      modifies `peers, `log, `share, peers.Values, requests.Values
      ensures Linked() && fresh(peers.Values - old(peers.Values))
      ensures var s := old(share);
              share == AskFor(s.(peers := s.peers[p := Peer(if p in s.peers then s.peers[p].wishlist else {}, NONE)]),
                              p, hs)
    {
      Restart(p);
      AskForAll(p, hs);
    }

    /** `got_out_stream_connected`. */
    method GotOutStreamConnected(p: PeerId, o: Order)
      requires Valid()
      modifies `peers, `log, `share, peers.Values, requests.Values
      ensures Valid() && fresh(peers.Values - old(peers.Values))
      ensures share == Connected(old(share), p, o)
    {
      HandleInv(share, EvConnected(p, o), sha);
      var hs := o.hashes(requests.Keys);
      assert hs == OpenRequests(share, o);
      RestartAndAsk(p, hs);
    }

    /** `got_in_stream_connected`. */
    method GotInStreamConnected(p: PeerId)
      requires Valid()
      modifies `peers, `share
      ensures Valid() && fresh(peers.Values - old(peers.Values))
      ensures share == InConnected(old(share), p)
    {
      HandleInv(share, EvInConnected(p), sha);
      FindPeer(p);
    }

    /** The transport says which peers have a live stream. */
    method SetLinks(newLinks: set<PeerId>)
      requires Valid()
      modifies `links, `share
      ensures Valid() && share == Handle(old(share), EvLink(newLinks), sha)
    {
      HandleInv(share, EvLink(newLinks), sha);
      links := newLinks;
      share := share.(links := newLinks);
    }

    // ----- events -----

    /** A request or a message from a peer. */
    method OnMessage(e: Event)
      requires Valid() && CanHappen(share, e) && (e.EvRequest? || e.EvStatusReply? || e.EvChunkReply?)
      modifies `requests, `log, `share, peers.Values, requests.Values
      ensures Valid() && fresh(requests.Values - old(requests.Values))
      ensures share == Handle(old(share), e, sha)
    {
      match e
      case EvRequest(r, h, o) => GotRequest(r, h, o);
      case EvStatusReply(p, h, st, o) => GotStatusReply(p, h, st, o);
      case EvChunkReply(p, h, data, o) => GotChunkReply(p, h, data, o);
    }

    /** A change of the outgoing streams. */
    method OnStream(e: Event)
      requires Valid() && (e.EvConnected? || e.EvDisconnected?)
      modifies `peers, `requests, `log, `share, peers.Values, requests.Values
      ensures Valid() && fresh(peers.Values - old(peers.Values)) && requests.Values <= old(requests.Values)
      ensures share == Handle(old(share), e, sha)
    {
      match e
      case EvConnected(p, o) => GotOutStreamConnected(p, o);
      case EvDisconnected(p, o) => GotOutStreamDisconnected(p, o);
    }

    method OnNotice(e: Event)
      requires Valid() && (e.EvInConnected? || e.EvLink?)
      modifies `peers, `links, `share
      ensures Valid() && fresh(peers.Values - old(peers.Values)) && share == Handle(old(share), e, sha)
    {
      match e
      case EvInConnected(p) => GotInStreamConnected(p);
      case EvLink(newLinks) => SetLinks(newLinks);
    }

    /** One event, whatever it is. */
    method OnEvent(e: Event)
      requires Valid() && CanHappen(share, e)
      modifies `peers, `requests, `links, `log, `share, peers.Values, requests.Values
      ensures Valid() && share == Handle(old(share), e, sha)
      ensures fresh(peers.Values - old(peers.Values)) && fresh(requests.Values - old(requests.Values))
    {
      if e.EvRequest? || e.EvStatusReply? || e.EvChunkReply? {
        OnMessage(e);
      } else if e.EvConnected? || e.EvDisconnected? {
        OnStream(e);
      } else {
        OnNotice(e);
      }
    }
  }

  lemma NextEvent(es: seq<Event>, i: nat, sha: bytes -> Hash)
    requires i < |es| && Run(EMPTY, es, sha).Some?
    ensures Run(EMPTY, es[..i], sha).Some? && CanHappen(Run(EMPTY, es[..i], sha).value, es[i])
    ensures Run(EMPTY, es[..i + 1], sha) == Some(Handle(Run(EMPTY, es[..i], sha).value, es[i], sha))
    decreases |es| - i
  {
    assert es[..|es|] == es && es[..i + 1][..i] == es[..i];
    if i + 1 < |es| {
      NextEvent(es, i + 1, sha);
    }
  }

  /** A service from its start through any run of events that can happen: it is in the state the
      run leads to, so what holds of every run holds of it. */
  method Serve(sha: bytes -> Hash, es: seq<Event>) returns (service: Service)
    requires Run(EMPTY, es, sha).Some?
    ensures fresh(service) && service.Valid() && service.sha == sha
    ensures Run(EMPTY, es, sha) == Some(service.share)
  {
    service := new Service(sha);
    var i := 0;
    while i < |es|
      invariant 0 <= i <= |es| && fresh(service) && service.Valid() && service.sha == sha
      invariant fresh(service.peers.Values) && fresh(service.requests.Values)
      invariant Run(EMPTY, es[..i], sha) == Some(service.share)
    {
      NextEvent(es, i, sha);
      service.OnEvent(es[i]);
      i := i + 1;
    }
    assert es[..i] == es;
  }
}
