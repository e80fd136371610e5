/** What one event does for the peer and the chunk it is about: who is asked, what is still wished
    for, and what is remembered of a peer's answers. */
module ShareEffects {
  import opened Bytes
  import opened Listing
  import opened ChunkShare
  import opened ShareSafety
  import opened ShareScheduling

  // ----- asking -----

  lemma AskedMore(s: Share, p: PeerId, h: Hash, q: PeerId, g: Hash)
    requires h in s.requests
    ensures AskedIn(s.log, q, g) ==> AskedIn(SendStatus(s, p, h).log, q, g)
    ensures p in s.links ==> AskedIn(SendStatus(s, p, h).log, p, h)
  {
    if p in s.links {
      Snoc(s.log, Asked(p, h), q, 0, g);
      Snoc(s.log, Asked(p, h), p, 0, h);
    }
  }

  lemma {:induction false} AskForAsks(s: Share, p: PeerId, hs: seq<Hash>, h: Hash)
    requires (forall g :: g in hs ==> g in s.requests) && p in s.links
    ensures AskFor(s, p, hs).links == s.links
    ensures h in hs || AskedIn(s.log, p, h) ==> AskedIn(AskFor(s, p, hs).log, p, h)
    ensures h in hs ==> Remembered(AskFor(s, p, hs), p, h, INVALID_STATUS)
    ensures Remembered(s, p, h, INVALID_STATUS) ==> Remembered(AskFor(s, p, hs), p, h, INVALID_STATUS)
  {
    if hs != [] {
      var n := |hs| - 1;
      AskForAsks(s, p, hs[..n], h);
      AskedMore(AskFor(s, p, hs[..n]), p, hs[n], p, h);
      assert hs == hs[..n] + [hs[n]];
    }
  }

  /** The answer of a peer that is stored with an open request. */
  predicate Remembered(s: Share, p: PeerId, h: Hash, st: int) {
    h in s.requests && p in s.requests[h].status && s.requests[h].status[p] == st
  }

  lemma {:induction false} AskForLogs(s: Share, p: PeerId, hs: seq<Hash>)
    requires (forall h :: h in hs ==> h in s.requests) && p !in s.links
    ensures AskFor(s, p, hs) == s
  {
    if hs != [] {
      AskForLogs(s, p, hs[..|hs| - 1]);
    }
  }

  /** A peer that connects is asked for every open request, if it can be reached; it keeps its
      wishes and has nothing to send; other peers stay as they are. */
  lemma ConnectAsksForAll(s: Share, p: PeerId, o: Order)
    ensures var r := Connected(s, p, o);
            r.requests.Keys == s.requests.Keys &&
            r.peers == s.peers[p := Peer(if p in s.peers then s.peers[p].wishlist else {}, NONE)] &&
            (p !in s.links ==> r.log == s.log) &&
            (p in s.links ==>
              forall h :: h in s.requests ==> AskedIn(r.log, p, h) && Remembered(r, p, h, INVALID_STATUS))
  {
    var wishlist := if p in s.peers then s.peers[p].wishlist else {};
    var s1 := s.(peers := s.peers[p := Peer(wishlist, NONE)]);
    var hs := OpenRequests(s, o);
    if p in s.links {
      forall h | h in s.requests
        ensures AskedIn(AskFor(s1, p, hs).log, p, h) && Remembered(AskFor(s1, p, hs), p, h, INVALID_STATUS)
      {
        AskForAsks(s1, p, hs, h);
      }
    } else {
      AskForLogs(s1, p, hs);
    }
  }

  lemma {:induction false} AskPeersAsks(s: Share, ps: seq<PeerId>, h: Hash, p: PeerId)
    requires h in s.requests && p in s.links
    ensures AskPeers(s, ps, h).links == s.links
    ensures p in ps || AskedIn(s.log, p, h) ==> AskedIn(AskPeers(s, ps, h).log, p, h)
    ensures forall rd, g :: Waits(s.requests, rd, g) ==> Waits(AskPeers(s, ps, h).requests, rd, g)
  {
    if ps != [] {
      var n := |ps| - 1;
      AskPeersAsks(s, ps[..n], h, p);
      AskedMore(AskPeers(s, ps[..n], h), ps[n], h, p, h);
      assert ps == ps[..n] + [ps[n]];
    }
  }

  /** For a new request every known peer that can be reached is asked, and the reader waits. */
  lemma RequestAsksAll(s: Share, rd: ReaderId, h: Hash, o: Order, p: PeerId)
    requires p in s.peers && p in s.links
    ensures var r := RequestChunk(s, rd, h, o);
            AskedIn(r.log, p, h) && Waits(r.requests, rd, h) && r.peers == s.peers
  {
    var ps := o.peers(s.peers.Keys);
    assert Lists(ps, s.peers.Keys) && p in s.peers.Keys;
    AskPeersAsks(AddReader(s, rd, h), ps, h, p);
    assert Waits(AddReader(s, rd, h).requests, rd, h);
  }

  // ----- leaving -----

  lemma {:induction false} RemovedFromEach(s: Share, p: PeerId, hs: seq<Hash>, o: Order, h: Hash)
    requires Distinct(hs) && forall g :: g in hs ==> g in s.requests
    ensures var r := RemoveFromEach(s, p, hs, o);
            h in r.requests ==> (h in s.requests &&
              (h in hs ==> p !in r.requests[h].potentials && p !in r.requests[h].status) &&
              (h !in hs ==> r.requests[h] == s.requests[h]))
  {
    if hs != [] {
      var n := |hs| - 1;
      assert forall i :: 0 <= i < n ==> hs[i] != hs[n];
      assert hs == hs[..n] + [hs[n]];
      RemovedFromEach(s, p, hs[..n], o, h);
    }
  }

  /** A peer that disconnects leaves no question open and no answer behind; what it wished for and
      was sending stays noted. */
  lemma DisconnectLeavesAll(s: Share, p: PeerId, o: Order, sha: bytes -> Hash, h: Hash)
    requires Inv(s, sha) && p in s.peers
    ensures var r := Disconnected(s, p, o);
            !AskedIn(r.log, p, h) && r.peers == s.peers && (h in r.requests ==> p !in r.requests[h].status)
  {
    var r := Disconnected(s, p, o);
    HandleInv(s, EvDisconnected(p, o), sha);
    RemovedFromEach(s, p, OpenRequests(s, o), o, h);
    assert Potential(r.requests, p, h) <==> AskedIn(r.log, p, h);
  }

  // ----- wishes -----

  lemma {:induction false} CheckEachWishes(s: Share, ps: seq<PeerId>, p: PeerId, o: Order)
    requires p in s.peers && forall q :: q in ps ==> q in s.peers
    ensures var r := CheckEach(s, ps, o);
            p in r.peers && r.peers[p].wishlist <= s.peers[p].wishlist &&
            forall h :: h in s.peers[p].wishlist && h in s.requests ==> h in r.peers[p].wishlist
  {
    if ps != [] {
      var n := |ps| - 1;
      var m := CheckEach(s, ps[..n], o);
      CheckEachWishes(s, ps[..n], p, o);
      assert ps[n] in m.peers.Keys;
      CheckWorkOthers(m, ps[n], o);
      CheckWorkStarts(m, ps[n], o);
    }
  }

  lemma CheckPeersWishes(s: Share, p: PeerId, o: Order)
    requires p in s.peers
    ensures var r := CheckPeers(s, o);
            p in r.peers && r.peers[p].wishlist <= s.peers[p].wishlist &&
            forall h :: h in s.peers[p].wishlist && h in s.requests ==> h in r.peers[p].wishlist
  {
    assert Lists(o.peers(s.peers.Keys), s.peers.Keys);
    CheckEachWishes(s, o.peers(s.peers.Keys), p, o);
  }

  /** After an online report the chunk is on the sender's wishlist; any answer about an open request
      is remembered as long as the request is open. */
  lemma StatusReplyNoted(s: Share, p: PeerId, h: Hash, st: int, o: Order)
    requires p in s.peers && h in s.requests
    ensures var r := StatusReply(s, p, h, st, o);
            p in r.peers && (h in r.requests ==> Remembered(r, p, h, st)) &&
            (h in r.peers[p].wishlist <==> st == ONLINE_CHUNK || h in s.peers[p].wishlist)
  {
    if st == ONLINE_CHUNK {
      CheckPeersWishes(Wish(SetStatus(s, p, h, st), p, h), p, o);
    }
  }

  /** After a reply with a chunk that is wanted the chunk is on the sender's wishlist no more; a bad
      one is remembered. */
  lemma ChunkReplyNoted(s: Share, p: PeerId, h: Hash, data: bytes, sha: bytes -> Hash, o: Order)
    requires p in s.peers && h in s.requests
    ensures var r := ChunkReply(s, p, h, data, sha, o);
            p in r.peers && h !in r.peers[p].wishlist &&
            (h in r.requests ==> Remembered(r, p, h, LOST_CHUNK) && (data == [] || sha(data) != h))
  {
    var s1 := Unwish(s, p, h);
    if data != [] && sha(data) == h {
      CheckPeersWishes(Close(s1, h, Some(data), o), p, o);
    }
  }

  lemma {:induction false} SearchDrops(s: Share, p: PeerId, wishes: seq<Hash>, h: Hash)
    requires p in s.peers && s.peers[p].current == NONE && h !in s.requests && NONE !in s.requests
    ensures var r := Search(s, p, wishes);
            p in r.peers && (r.peers[p].current == NONE && h in wishes ==> h !in r.peers[p].wishlist)
    ensures h !in s.peers[p].wishlist ==> h !in Search(s, p, wishes).peers[p].wishlist
    decreases |wishes|
  {
    if wishes != [] {
      var g, peer := wishes[0], s.peers[p];
      if g !in s.requests {
        SearchDrops(s.(peers := s.peers[p := peer.(wishlist := peer.wishlist - {g})]), p, wishes[1..], h);
      } else if Taken(s, g) {
        SearchDrops(s, p, wishes[1..], h);
      }
    }
  }

  /** A connected peer that finds nothing to do wishes for nothing but requested chunks. */
  lemma IdleWishesWanted(s: Share, p: PeerId, o: Order, h: Hash)
    requires Idle(s, p) && NONE !in s.requests && h !in s.requests
    ensures var r := CheckWork(s, p, o);
            p in r.peers && (r.peers[p].current == NONE ==> h !in r.peers[p].wishlist)
  {
    var wishes := o.hashes(s.peers[p].wishlist);
    assert Lists(wishes, s.peers[p].wishlist);
    SearchDrops(s, p, wishes, h);
  }
}
