/** What a walk over all peers achieves, and what being a potential peer does not mean. */
module ShareScheduling {
  import opened Bytes
  import opened Listing
  import opened ChunkShare
  import opened ShareSafety

  // ----- work conservation -----

  predicate Idle(s: Share, p: PeerId) { p in s.peers && p in s.links && s.peers[p].current == NONE }

  ghost predicate NothingToDo(s: Share, p: PeerId)
    requires p in s.peers
  {
    forall h :: h in s.peers[p].wishlist && h in s.requests ==> Taken(s, h)
  }

  /** No connected idle peer could be sending a chunk that is wanted and that nobody sends. */
  ghost predicate WorkConserving(s: Share) { forall p :: Idle(s, p) ==> NothingToDo(s, p) }

  /** What was being downloaded still is, and other peers are left alone. */
  ghost predicate Keeps(s: Share, r: Share, p: PeerId) {
    r.requests == s.requests && r.links == s.links && r.peers.Keys == s.peers.Keys &&
    (forall q :: q in s.peers && q != p ==> r.peers[q] == s.peers[q]) &&
    (forall h :: h != NONE && Taken(s, h) ==> Taken(r, h))
  }

  lemma {:induction false} SearchSettles(s: Share, p: PeerId, wishes: seq<Hash>)
    requires p in s.peers && s.peers[p].current == NONE && NONE !in s.peers[p].wishlist
    requires forall h :: h in wishes ==> h != NONE
    requires forall h :: h in s.peers[p].wishlist && h in s.requests ==> h in wishes || Taken(s, h)
    ensures Keeps(s, Search(s, p, wishes), p)
    ensures Idle(Search(s, p, wishes), p) ==> NothingToDo(Search(s, p, wishes), p)
    decreases |wishes|
  {
    SearchFrame(s, p, wishes);
    if wishes != [] {
      var h, peer := wishes[0], s.peers[p];
      assert forall g :: g in wishes <==> g == h || g in wishes[1..];
      if h !in s.requests {
        var s' := s.(peers := s.peers[p := peer.(wishlist := peer.wishlist - {h})]);
        SameCurrents(s, s');
        SearchSettles(s', p, wishes[1..]);
      } else if Taken(s, h) {
        SearchSettles(s, p, wishes[1..]);
      } else {
        NewCurrent(s, Search(s, p, wishes), p);
      }
    }
  }

  lemma SameCurrents(s: Share, r: Share)
    requires r.peers.Keys == s.peers.Keys
    requires forall q :: q in s.peers ==> r.peers[q].current == s.peers[q].current
    ensures forall h :: Taken(s, h) <==> Taken(r, h)
  {
    forall h ensures Taken(s, h) <==> Taken(r, h) {
      if Taken(s, h) {
        var q :| q in s.peers && s.peers[q].current == h;
        assert q in r.peers.Keys;
      }
      if Taken(r, h) {
        var q :| q in r.peers && r.peers[q].current == h;
        assert q in s.peers.Keys;
      }
    }
  }

  lemma NewCurrent(s: Share, r: Share, p: PeerId)
    requires p in s.peers && s.peers[p].current == NONE && r.peers.Keys == s.peers.Keys
    requires forall q :: q in s.peers && q != p ==> r.peers[q] == s.peers[q]
    ensures forall h :: h != NONE && Taken(s, h) ==> Taken(r, h)
  {
    forall h | h != NONE && Taken(s, h) ensures Taken(r, h) {
      var q :| q in s.peers && s.peers[q].current == h;
      assert q in r.peers.Keys && r.peers[q].current == h;
    }
  }

  lemma CheckWorkSettles(s: Share, p: PeerId, o: Order)
    requires p in s.peers && Downloads(s.peers)
    ensures var r := CheckWork(s, p, o);
            Keeps(s, r, p) && (Idle(r, p) ==> NothingToDo(r, p))
  {
    assert Lists(o.hashes(s.peers[p].wishlist), s.peers[p].wishlist);
    if p in s.links && s.peers[p].current == NONE && s.peers[p].wishlist != {} {
      SearchSettles(s, p, o.hashes(s.peers[p].wishlist));
    }
  }

  lemma {:induction false} CheckEachSettles(s: Share, ps: seq<PeerId>, o: Order, sha: bytes -> Hash)
    requires Inv(s, sha) && forall p :: p in ps ==> p in s.peers
    ensures forall p :: p in ps && Idle(CheckEach(s, ps, o), p) ==> NothingToDo(CheckEach(s, ps, o), p)
  {
    if ps != [] {
      var n := |ps| - 1;
      var s', r := CheckEach(s, ps[..n], o), CheckEach(s, ps, o);
      assert ps[n] in s'.peers.Keys;
      CheckEachInv(s, ps[..n], o, sha);
      CheckEachSettles(s, ps[..n], o, sha);
      CheckWorkSettles(s', ps[n], o);
      forall p | p in ps && Idle(r, p) ensures NothingToDo(r, p) {
        if p != ps[n] {
          assert ps == ps[..n] + [ps[n]] && p in ps[..n];
          StaysSettled(s', r, ps[n], p);
        }
      }
    }
  }

  lemma StaysSettled(s: Share, r: Share, p: PeerId, q: PeerId)
    requires Keeps(s, r, p) && q != p && q in s.peers && Idle(r, q) && Downloads(s.peers)
    requires Idle(s, q) ==> NothingToDo(s, q)
    ensures NothingToDo(r, q)
  {
    assert r.peers[q] == s.peers[q];
    forall h | h in r.peers[q].wishlist && h in r.requests ensures Taken(r, h) {
      assert Taken(s, h);
    }
  }

  /** After a walk over all peers no useful download is left unstarted, so with downloads being
      exclusive the assignment of chunks to peers is maximal. */
  lemma CheckPeersConservesWork(s: Share, o: Order, sha: bytes -> Hash)
    requires Inv(s, sha)
    ensures WorkConserving(CheckPeers(s, o)) && Downloads(CheckPeers(s, o).peers)
  {
    var ps, r := o.peers(s.peers.Keys), CheckPeers(s, o);
    assert Lists(ps, s.peers.Keys);
    CheckPeersInv(s, o, sha);
    CheckEachSettles(s, ps, o, sha);
    forall p | Idle(r, p) ensures NothingToDo(r, p) {
      assert p in s.peers.Keys && p in ps;
    }
  }

  // ----- what is started -----

  /** A started download is of a chunk that is requested, wished for and not yet downloaded, by a
      connected peer that was idle. */
  ghost predicate Starts(s: Share, r: Share, p: PeerId) {
    p in s.peers && p in r.peers &&
    (r.peers[p].current == s.peers[p].current ||
     (Idle(s, p) && r.peers[p].current in s.peers[p].wishlist && r.peers[p].current in s.requests &&
      !Taken(s, r.peers[p].current)))
  }

  lemma {:induction false} SearchStarts(s: Share, p: PeerId, wishes: seq<Hash>)
    requires Idle(s, p) && forall h :: h in wishes ==> h in s.peers[p].wishlist
    requires Distinct(wishes)
    ensures Starts(s, Search(s, p, wishes), p)
    ensures Search(s, p, wishes).peers[p].wishlist <= s.peers[p].wishlist
    ensures forall h :: h in s.peers[p].wishlist && h in s.requests ==> h in Search(s, p, wishes).peers[p].wishlist
    decreases |wishes|
  {
    if wishes != [] {
      var h, peer := wishes[0], s.peers[p];
      assert forall g :: g in wishes[1..] ==> g in wishes && g != h;
      if h !in s.requests {
        var s' := s.(peers := s.peers[p := peer.(wishlist := peer.wishlist - {h})]);
        SameCurrents(s, s');
        SearchStarts(s', p, wishes[1..]);
      } else if Taken(s, h) {
        SearchStarts(s, p, wishes[1..]);
      }
    }
  }

  /** `check_work` starts nothing redundant, and drops only wishes nobody requests. */
  lemma CheckWorkStarts(s: Share, p: PeerId, o: Order)
    requires p in s.peers
    ensures var r := CheckWork(s, p, o);
            Starts(s, r, p) && r.peers[p].wishlist <= s.peers[p].wishlist &&
            (forall h :: h in s.peers[p].wishlist && h in s.requests ==> h in r.peers[p].wishlist)
  {
    assert Lists(o.hashes(s.peers[p].wishlist), s.peers[p].wishlist);
    if p in s.links && s.peers[p].current == NONE && s.peers[p].wishlist != {} {
      SearchStarts(s, p, o.hashes(s.peers[p].wishlist));
    }
  }

  // ----- what a potential peer is -----

  /** The comment on `potentials` counts in every peer that has positively reported the chunk. An
      online report does not put its sender in: it is a potential peer afterwards exactly if the
      question it was asked is still open. */
  lemma OnlineReportCounts(s: Share, p: PeerId, h: Hash, o: Order, sha: bytes -> Hash)
    requires Inv(s, sha) && p in s.peers && h in s.requests
    ensures var r := StatusReply(s, p, h, ONLINE_CHUNK, o);
            h in r.requests && r.requests[h].status[p := ONLINE_CHUNK] == r.requests[h].status &&
            (p in r.requests[h].potentials <==> AskedIn(s.log, p, h))
  {
    assert Potential(s.requests, p, h) <==> AskedIn(s.log, p, h);
  }

  lemma OneListed<T(!new)>(q: seq<T>, x: T)
    requires Lists(q, {x})
    ensures q == [x]
  {
    assert !(|q| > 1 && q[0] == q[1]);
    forall i | 0 <= i < |q| ensures q[i] == x { assert q[i] in q; }
    assert x in q;
  }

  /** The walk of `check_peers` when one peer at most has wishes. */
  lemma {:induction false} CheckWisher(s: Share, ps: seq<PeerId>, p: PeerId, o: Order)
    requires Distinct(ps) && p in s.peers && forall q :: q in ps ==> q in s.peers
    requires forall q :: q in s.peers && q != p ==> s.peers[q].wishlist == {}
    ensures CheckEach(s, ps, o) == if p in ps then CheckWork(s, p, o) else s
  {
    if ps != [] {
      var n := |ps| - 1;
      CheckWisher(s, ps[..n], p, o);
      CheckWorkOthers(s, p, o);
      assert ps == ps[..n] + [ps[n]] && ps[n] !in ps[..n];
    }
  }

  /** The search changes only its own peer. */
  lemma CheckWorkOthers(s: Share, p: PeerId, o: Order)
    requires p in s.peers
    ensures var r := CheckWork(s, p, o);
            r.peers.Keys == s.peers.Keys && forall q :: q in s.peers && q != p ==> r.peers[q] == s.peers[q]
  {
    SearchFrame(s, p, o.hashes(s.peers[p].wishlist));
    SearchOthers(s, p, o.hashes(s.peers[p].wishlist));
  }

  lemma {:induction false} SearchOthers(s: Share, p: PeerId, wishes: seq<Hash>)
    requires p in s.peers
    ensures forall q :: q in s.peers && q != p ==>
              q in Search(s, p, wishes).peers && Search(s, p, wishes).peers[q] == s.peers[q]
    decreases |wishes|
  {
    if wishes != [] {
      if wishes[0] !in s.requests {
        var peer := s.peers[p];
        SearchOthers(s.(peers := s.peers[p := peer.(wishlist := peer.wishlist - {wishes[0]})]), p, wishes[1..]);
      } else if Taken(s, wishes[0]) {
        SearchOthers(s, p, wishes[1..]);
      }
    }
  }

  /** A chunk one idle connected peer has, and that nobody downloads, is fetched from it. */
  lemma FetchOnly(s: Share, p: PeerId, h: Hash, o: Order)
    requires p in s.peers && p in s.links && s.peers[p] == Peer({h}, NONE) && h in s.requests && !Taken(s, h)
    requires forall q :: q in s.peers && q != p ==> s.peers[q].wishlist == {}
    ensures CheckPeers(s, o) == s.(peers := s.peers[p := Peer({h}, h)], log := s.log + [Fetch(p, h)])
  {
    var ps := o.peers(s.peers.Keys);
    assert Lists(ps, s.peers.Keys) && Lists(o.hashes({h}), {h});
    assert p in s.peers.Keys && p in ps;
    CheckWisher(s, ps, p, o);
    OneListed(o.hashes({h}), h);
  }

  // ----- the steps of a run with one request -----

  function Asking(req: Request, p: PeerId): Request {
    req.(potentials := req.potentials + {p}, status := req.status[p := INVALID_STATUS])
  }

  /** A connected peer without wishes is asked for the only open request. */
  lemma ConnectedOne(s: Share, p: PeerId, h: Hash, req: Request, o: Order)
    requires s.requests == map[h := req] && p in s.links && (p in s.peers ==> s.peers[p] == Peer({}, NONE))
    ensures Connected(s, p, o) ==
            Share(s.peers[p := Peer({}, NONE)], map[h := Asking(req, p)], s.links, s.log + [Asked(p, h)])
  {
    assert s.requests.Keys == {h};
    assert Lists(o.hashes({h}), {h});
    OneListed(o.hashes({h}), h);
    var s1 := s.(peers := s.peers[p := Peer({}, NONE)]);
    assert OpenRequests(s, o) == [h] && [h][..0] == [];
    assert AskFor(s1, p, []) == s1;
    assert map[h := req][h := Asking(req, p)] == map[h := Asking(req, p)];
  }

  /** A peer connects when nothing is asked for. */
  lemma ConnectedIdle(s: Share, p: PeerId, o: Order)
    requires s.requests == map[] && p !in s.peers
    ensures Connected(s, p, o) == s.(peers := s.peers[p := Peer({}, NONE)])
  {
    assert s.requests.Keys == {};
    assert Lists(OpenRequests(s, o), {});
    ListSize(OpenRequests(s, o), {});
  }

  /** The first request goes to the only peer. */
  lemma RequestOne(s: Share, q: PeerId, r: ReaderId, h: Hash, o: Order)
    requires s.peers == map[q := Peer({}, NONE)] && s.links == {q} && s.requests == map[] && s.log == []
    ensures RequestChunk(s, r, h, o) ==
            s.(requests := map[h := Request({r}, {q}, map[q := INVALID_STATUS])], log := [Opened(r, h)] + [Asked(q, h)])
  {
    var req := Request({r}, {}, map[]);
    assert {} + {r} == {r} && map[][h := req] == map[h := req];
    var s1 := s.(requests := map[h := req], log := [Opened(r, h)]);
    assert AddReader(s, r, h) == s1;
    assert s.peers.Keys == {q};
    assert Lists(o.peers({q}), {q});
    OneListed(o.peers({q}), q);
    assert [q][..0] == [] && AskPeers(s1, [], h) == s1;
    assert Asking(req, q) == Request({r}, {q}, map[q := INVALID_STATUS]);
    assert map[h := req][h := Asking(req, q)] == map[h := Asking(req, q)];
  }

  /** A negative answer while another peer has yet to answer. */
  lemma UnknownReport(s: Share, p: PeerId, h: Hash, req: Request, o: Order)
    requires p in s.peers && s.requests == map[h := req] && req.potentials - {p} != {}
    ensures StatusReply(s, p, h, UNKNOWN_CHUNK, o) ==
            s.(requests := map[h := Request(req.readers, req.potentials - {p}, req.status[p := UNKNOWN_CHUNK])],
               log := s.log + [Negative(p, h)])
  {
    var req1 := req.(status := req.status[p := UNKNOWN_CHUNK]);
    var req2 := req1.(potentials := req.potentials - {p});
    assert map[h := req][h := req1][h := req2] == map[h := req2];
  }

  /** An online report makes the peer send the chunk, and does not make it a potential peer. */
  lemma OnlineReport(s: Share, p: PeerId, h: Hash, req: Request, o: Order)
    requires s.requests == map[h := req] && p in s.peers && p in s.links
    requires (forall q :: q in s.peers ==> s.peers[q] == Peer({}, NONE)) && h != NONE
    ensures StatusReply(s, p, h, ONLINE_CHUNK, o) ==
            Share(s.peers[p := Peer({h}, h)], map[h := req.(status := req.status[p := ONLINE_CHUNK])], s.links,
                  s.log + [Fetch(p, h)])
  {
    var req1 := req.(status := req.status[p := ONLINE_CHUNK]);
    var w := s.(peers := s.peers[p := Peer({h}, NONE)], requests := map[h := req1]);
    assert {} + {h} == {h} && map[h := req][h := req1] == map[h := req1];
    assert Wish(SetStatus(s, p, h, ONLINE_CHUNK), p, h) == w;
    assert w.peers[p := Peer({h}, h)] == s.peers[p := Peer({h}, h)];
    FetchOnly(w, p, h, o);
  }

  /** The last potential peer disconnects: the reader is told that there is no data. */
  lemma GiveUp(s: Share, q: PeerId, r: ReaderId, h: Hash, st: map<PeerId, int>, o: Order)
    requires q in s.peers && s.requests == map[h := Request({r}, {q}, st)]
    ensures Disconnected(s, q, o) == s.(requests := map[], log := s.log + [Gone(q, h)] + [Answered(r, h, None)])
  {
    assert s.requests.Keys == {h};
    assert Lists(o.hashes({h}), {h}) && Lists(o.readers({r}), {r});
    OneListed(o.hashes({h}), h);
    OneListed(o.readers({r}), r);
    assert OpenRequests(s, o) == [h];
    assert RemoveFromEach(s, q, [], o) == s && [h][..0] == [];
    var s1 := Discount(ForgetStatus(s, q, h), q, h, Gone(q, h));
    assert {q} - {q} == {};
    assert s1.requests[h] == Request({r}, {}, st - {q}) && s1.requests.Keys == {h};
    assert RemoveFromEach(s, q, [h], o) == RemoveFrom(s, q, h, o);
    assert TellAll(s1.log, [r], h, None) == TellAll(s1.log, [], h, None) + [Answered(r, h, None)];
  }

  lemma RunStep(es: seq<Event>, e: Event, s: Share, s': Share, sha: bytes -> Hash)
    requires Run(EMPTY, es, sha) == Some(s) && CanHappen(s, e) && Handle(s, e, sha) == s'
    ensures Run(EMPTY, es + [e], sha) == Some(s')
  {
    assert (es + [e])[..|es|] == es;
  }

  // ----- a reader told that there is no data while a peer sends it -----

  function Two(p: PeerId, q: PeerId, peer: Peer): map<PeerId, Peer> { map[q := Peer({}, NONE)][p := peer] }

  /** `q` connects and is asked for a chunk; `p` connects twice and is asked twice. */
  function AskedTwice(p: PeerId, q: PeerId, r: ReaderId, h: Hash, o: Order): seq<Event> {
    [EvLink({q})] + [EvConnected(q, o)] + [EvRequest(r, h, o)] + [EvLink({p, q})] + [EvConnected(p, o)] +
    [EvConnected(p, o)]
  }

  function AskedTwiceLog(p: PeerId, q: PeerId, r: ReaderId, h: Hash): seq<Entry> {
    [Opened(r, h)] + [Asked(q, h)] + [Asked(p, h)] + [Asked(p, h)]
  }

  lemma OnePeerAsked(q: PeerId, r: ReaderId, h: Hash, o: Order, sha: bytes -> Hash)
    requires h != NONE
    ensures Run(EMPTY, [EvLink({q})] + [EvConnected(q, o)] + [EvRequest(r, h, o)], sha) ==
            Some(Share(map[q := Peer({}, NONE)], map[h := Request({r}, {q}, map[q := INVALID_STATUS])], {q},
                       [Opened(r, h)] + [Asked(q, h)]))
  {
    var s1 := EMPTY.(links := {q});
    var s2 := s1.(peers := map[q := Peer({}, NONE)]);
    RunStep([], EvLink({q}), EMPTY, s1, sha);
    ConnectedIdle(s1, q, o);
    assert [] + [EvLink({q})] == [EvLink({q})];
    RunStep([EvLink({q})], EvConnected(q, o), s1, s2, sha);
    RequestOne(s2, q, r, h, o);
    RunStep([EvLink({q})] + [EvConnected(q, o)], EvRequest(r, h, o), s2, RequestChunk(s2, r, h, o), sha);
  }

  lemma TwoPeersAsked(p: PeerId, q: PeerId, r: ReaderId, h: Hash, o: Order, sha: bytes -> Hash)
    requires p != q && h != NONE
    ensures Run(EMPTY, AskedTwice(p, q, r, h, o), sha) ==
            Some(Share(Two(p, q, Peer({}, NONE)),
                       map[h := Request({r}, {p, q}, map[q := INVALID_STATUS][p := INVALID_STATUS])], {p, q},
                       AskedTwiceLog(p, q, r, h)))
  {
    var es := [EvLink({q})] + [EvConnected(q, o)] + [EvRequest(r, h, o)];
    var req := Request({r}, {q}, map[q := INVALID_STATUS]);
    var req' := Request({r}, {p, q}, map[q := INVALID_STATUS][p := INVALID_STATUS]);
    var log := [Opened(r, h)] + [Asked(q, h)];
    var s3 := Share(map[q := Peer({}, NONE)], map[h := req], {q}, log);
    var s4 := s3.(links := {p, q});
    var s5 := Share(Two(p, q, Peer({}, NONE)), map[h := req'], {p, q}, log + [Asked(p, h)]);
    var s6 := s5.(log := log + [Asked(p, h)] + [Asked(p, h)]);
    OnePeerAsked(q, r, h, o, sha);
    RunStep(es, EvLink({p, q}), s3, s4, sha);
    assert Asking(req, p) == req' && Asking(req', p) == req';
    ConnectedOne(s4, p, h, req, o);
    RunStep(es + [EvLink({p, q})], EvConnected(p, o), s4, s5, sha);
    ConnectedOne(s5, p, h, req', o);
    assert s5.peers[p := Peer({}, NONE)] == s5.peers;
    RunStep(es + [EvLink({p, q})] + [EvConnected(p, o)], EvConnected(p, o), s5, s6, sha);
  }

  /** `p` answers that it does not know the chunk and then that it has it, and `q` disconnects. */
  function NoDataRun(p: PeerId, q: PeerId, r: ReaderId, h: Hash, o: Order): seq<Event> {
    AskedTwice(p, q, r, h, o) + [EvStatusReply(p, h, UNKNOWN_CHUNK, o)] + [EvStatusReply(p, h, ONLINE_CHUNK, o)] +
    [EvLink({p})] + [EvDisconnected(q, o)]
  }

  function NoDataLog(p: PeerId, q: PeerId, r: ReaderId, h: Hash): seq<Entry> {
    AskedTwiceLog(p, q, r, h) + [Negative(p, h)] + [Fetch(p, h)] + [Gone(q, h)] + [Answered(r, h, None)]
  }

  /** It matters: `p`, asked twice, answers first that it does not know the chunk and then that it
      has it; when `q` disconnects the reader is told that nobody has it, while `p` is sending it. */
  lemma NoDataWhileDownloading(p: PeerId, q: PeerId, r: ReaderId, h: Hash, o: Order, sha: bytes -> Hash)
    requires p != q && h != NONE
    ensures Run(EMPTY, NoDataRun(p, q, r, h, o), sha) ==
            Some(Share(Two(p, q, Peer({h}, h)), map[], {p}, NoDataLog(p, q, r, h)))
  {
    var es := AskedTwice(p, q, r, h, o);
    var st := map[q := INVALID_STATUS][p := INVALID_STATUS];
    var log := AskedTwiceLog(p, q, r, h);
    var req := Request({r}, {p, q}, st);
    var req' := Request({r}, {q}, st[p := UNKNOWN_CHUNK]);
    var s0 := Share(Two(p, q, Peer({}, NONE)), map[h := req], {p, q}, log);
    var s1 := Share(Two(p, q, Peer({}, NONE)), map[h := req'], {p, q}, log + [Negative(p, h)]);
    var st' := st[p := UNKNOWN_CHUNK][p := ONLINE_CHUNK];
    var s2 := Share(Two(p, q, Peer({h}, h)), map[h := Request({r}, {q}, st')], {p, q},
                    log + [Negative(p, h)] + [Fetch(p, h)]);
    var s3 := s2.(links := {p});
    TwoPeersAsked(p, q, r, h, o, sha);
    assert {p, q} - {p} == {q};
    UnknownReport(s0, p, h, req, o);
    RunStep(es, EvStatusReply(p, h, UNKNOWN_CHUNK, o), s0, s1, sha);
    OnlineReport(s1, p, h, req', o);
    assert s1.peers[p := Peer({h}, h)] == Two(p, q, Peer({h}, h));
    RunStep(es + [EvStatusReply(p, h, UNKNOWN_CHUNK, o)], EvStatusReply(p, h, ONLINE_CHUNK, o), s1, s2, sha);
    var es2 := es + [EvStatusReply(p, h, UNKNOWN_CHUNK, o)] + [EvStatusReply(p, h, ONLINE_CHUNK, o)];
    RunStep(es2, EvLink({p}), s2, s3, sha);
    GiveUp(s3, q, r, h, st', o);
    RunStep(es2 + [EvLink({p})], EvDisconnected(q, o), s3, Disconnected(s3, q, o), sha);
  }

  // ----- how long a peer is taken for busy -----

  /** What clears the slot of `p` while it holds the chunk `g`: a new connection, or a reply with
      the chunk as long as somebody wants it. */
  predicate Frees(s: Share, p: PeerId, g: Hash, e: Event) {
    (e.EvConnected? && e.p == p) || (e.EvChunkReply? && e.p == p && e.h == g && g in s.requests)
  }

  /** A walk over the peers starts only requested chunks, and at idle peers. */
  lemma {:induction false} SearchSlot(s: Share, p: PeerId, wishes: seq<Hash>)
    requires p in s.peers
    ensures var r := Search(s, p, wishes);
            p in r.peers && (r.peers[p].current == s.peers[p].current || r.peers[p].current in s.requests)
    decreases |wishes|
  {
    if wishes != [] {
      if wishes[0] !in s.requests {
        var peer := s.peers[p];
        SearchSlot(s.(peers := s.peers[p := peer.(wishlist := peer.wishlist - {wishes[0]})]), p, wishes[1..]);
      } else if Taken(s, wishes[0]) {
        SearchSlot(s, p, wishes[1..]);
      }
    }
  }

  lemma CheckWorkSlot(s: Share, q: PeerId, p: PeerId, o: Order)
    requires q in s.peers && p in s.peers
    ensures var r := CheckWork(s, q, o);
            r.requests == s.requests && p in r.peers &&
            (s.peers[p].current != NONE ==> r.peers[p].current == s.peers[p].current) &&
            (r.peers[p].current == s.peers[p].current || r.peers[p].current in s.requests)
  {
    SearchFrame(s, q, o.hashes(s.peers[q].wishlist));
    CheckWorkOthers(s, q, o);
    SearchSlot(s, q, o.hashes(s.peers[q].wishlist));
  }

  lemma {:induction false} CheckEachSlot(s: Share, ps: seq<PeerId>, p: PeerId, o: Order)
    requires p in s.peers && forall q :: q in ps ==> q in s.peers
    ensures var r := CheckEach(s, ps, o);
            p in r.peers &&
            (s.peers[p].current != NONE ==> r.peers[p].current == s.peers[p].current) &&
            (r.peers[p].current == s.peers[p].current || r.peers[p].current in s.requests)
  {
    if ps != [] {
      var n := |ps| - 1;
      CheckEachSlot(s, ps[..n], p, o);
      CheckWorkSlot(CheckEach(s, ps[..n], o), ps[n], p, o);
    }
  }

  lemma CheckPeersSlot(s: Share, p: PeerId, o: Order)
    requires p in s.peers
    ensures var r := CheckPeers(s, o);
            p in r.peers &&
            (s.peers[p].current != NONE ==> r.peers[p].current == s.peers[p].current) &&
            (r.peers[p].current == s.peers[p].current || r.peers[p].current in s.requests)
  {
    assert Lists(o.peers(s.peers.Keys), s.peers.Keys);
    CheckEachSlot(s, o.peers(s.peers.Keys), p, o);
  }

  lemma ReplyFrees(s: Share, p: PeerId, e: Event, sha: bytes -> Hash)
    requires CanHappen(s, e) && p in s.peers && s.peers[p].current != NONE && e.EvChunkReply?
    ensures var r := Handle(s, e, sha);
            p in r.peers && (r.peers[p].current == s.peers[p].current <==> !Frees(s, p, s.peers[p].current, e))
  {
    if e.h in s.requests {
      var s1 := Unwish(s, e.p, e.h);
      if e.data != [] && sha(e.data) == e.h {
        CheckPeersSlot(Close(s1, e.h, Some(e.data), e.o), p, e.o);
      }
    }
  }

  /** A peer's slot is cleared by those events and by no others. A reply that comes when nobody
      wants the chunk any more leaves it taken, and so does losing the connection. */
  lemma SlotFreedIff(s: Share, p: PeerId, e: Event, sha: bytes -> Hash)
    requires CanHappen(s, e) && p in s.peers && s.peers[p].current != NONE
    ensures var r := Handle(s, e, sha);
            p in r.peers && (r.peers[p].current == s.peers[p].current <==> !Frees(s, p, s.peers[p].current, e))
  {
    match e {
      case EvStatusReply(q, h, st, o) =>
        if h in s.requests && st == ONLINE_CHUNK {
          CheckPeersSlot(Wish(SetStatus(s, q, h, st), q, h), p, o);
        }
      case EvChunkReply(_, _, _, _) =>
        ReplyFrees(s, p, e, sha);
      case _ =>
    }
  }

  lemma {:induction false} AskLinked(s: Share, ps: seq<PeerId>, p: PeerId, h: Hash)
    requires h in s.requests && s.links == {p} && Distinct(ps)
    ensures AskPeers(s, ps, h) == if p in ps then SendStatus(s, p, h) else s
  {
    if ps != [] {
      var n := |ps| - 1;
      AskLinked(s, ps[..n], p, h);
      assert ps == ps[..n] + [ps[n]] && ps[n] !in ps[..n];
    }
  }

  /** A request that only `p` is asked for. */
  lemma RequestLinked(s: Share, p: PeerId, r: ReaderId, h: Hash, o: Order)
    requires s.requests == map[] && s.links == {p} && p in s.peers
    ensures RequestChunk(s, r, h, o) ==
            s.(requests := map[h := Request({r}, {p}, map[p := INVALID_STATUS])],
               log := s.log + [Opened(r, h)] + [Asked(p, h)])
  {
    var req := Request({r}, {}, map[]);
    var ps := o.peers(s.peers.Keys);
    assert {} + {r} == {r} && map[][h := req] == map[h := req];
    var s1 := s.(requests := map[h := req], log := s.log + [Opened(r, h)]);
    assert AddReader(s, r, h) == s1;
    assert Lists(ps, s.peers.Keys) && p in s.peers.Keys && p in ps;
    AskLinked(s1, ps, p, h);
    assert Asking(req, p) == Request({r}, {p}, map[p := INVALID_STATUS]);
    assert map[h := req][h := Asking(req, p)] == map[h := Asking(req, p)];
  }

  /** An online report from a peer that is taken for busy starts nothing. */
  lemma BusyReport(s: Share, p: PeerId, h: Hash, req: Request, o: Order)
    requires s.requests == map[h := req] && p in s.peers && s.peers[p] == Peer({h}, h) && h != NONE
    requires forall q :: q in s.peers && q != p ==> s.peers[q].wishlist == {}
    ensures StatusReply(s, p, h, ONLINE_CHUNK, o) ==
            s.(requests := map[h := req.(status := req.status[p := ONLINE_CHUNK])])
  {
    var req1 := req.(status := req.status[p := ONLINE_CHUNK]);
    var w := s.(requests := map[h := req1]);
    assert {h} + {h} == {h} && map[h := req][h := req1] == map[h := req1];
    assert s.peers[p := Peer({h}, h)] == s.peers;
    assert Wish(SetStatus(s, p, h, ONLINE_CHUNK), p, h) == w;
    var ps := o.peers(w.peers.Keys);
    assert Lists(ps, w.peers.Keys);
    CheckWisher(w, ps, p, o);
  }

  /** So the run above goes on like this: the chunk arrives and is dropped, the reader asks for it
      again, `p` says that it has it, and is never told to send it. */
  lemma NeverFetched(p: PeerId, q: PeerId, r: ReaderId, h: Hash, data: bytes, o: Order, sha: bytes -> Hash)
    requires p != q && h != NONE
    ensures Run(EMPTY, NoDataRun(p, q, r, h, o) + [EvChunkReply(p, h, data, o)] + [EvRequest(r, h, o)] +
                       [EvStatusReply(p, h, ONLINE_CHUNK, o)], sha) ==
            Some(Share(Two(p, q, Peer({h}, h)), map[h := Request({r}, {p}, map[p := ONLINE_CHUNK])], {p},
                       NoDataLog(p, q, r, h) + [Opened(r, h)] + [Asked(p, h)]))
  {
    var es := NoDataRun(p, q, r, h, o);
    var s := Share(Two(p, q, Peer({h}, h)), map[], {p}, NoDataLog(p, q, r, h));
    NoDataWhileDownloading(p, q, r, h, o, sha);
    var req := Request({r}, {p}, map[p := INVALID_STATUS]);
    var s2 := s.(requests := map[h := req], log := s.log + [Opened(r, h)] + [Asked(p, h)]);
    var s3 := s2.(requests := map[h := Request({r}, {p}, map[p := ONLINE_CHUNK])]);
    RunStep(es, EvChunkReply(p, h, data, o), s, s, sha);
    RequestLinked(s, p, r, h, o);
    RunStep(es + [EvChunkReply(p, h, data, o)], EvRequest(r, h, o), s, s2, sha);
    BusyReport(s2, p, h, req, o);
    assert map[p := INVALID_STATUS][p := ONLINE_CHUNK] == map[p := ONLINE_CHUNK];
    RunStep(es + [EvChunkReply(p, h, data, o)] + [EvRequest(r, h, o)], EvStatusReply(p, h, ONLINE_CHUNK, o),
            s2, s3, sha);
  }
}
