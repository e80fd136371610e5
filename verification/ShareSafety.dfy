/** What holds over every run of the chunk sharing protocol, whatever the order of events and of
    the walks through the containers. */
module ShareSafety {
  import opened Bytes
  import opened Listing
  import opened ChunkShare

  // ----- reading the log -----

  /** By the log, `p` has been asked for `h` and the question is open: no negative outcome and no
      answer to the readers since. */
  predicate AskedIn(log: seq<Entry>, p: PeerId, h: Hash) {
    if log == [] then false else
      var rest := log[..|log| - 1];
      match log[|log| - 1]
      case Asked(q, g) => (q == p && g == h) || AskedIn(rest, p, h)
      case Negative(q, g) => !(q == p && g == h) && AskedIn(rest, p, h)
      case Failed(q, g) => !(q == p && g == h) && AskedIn(rest, p, h)
      case Gone(q, g) => !(q == p && g == h) && AskedIn(rest, p, h)
      case Answered(_, g, _) => g != h && AskedIn(rest, p, h)
      case _ => AskedIn(rest, p, h)
  }

  /** How often the reader's wish for the chunk was registered, and how often answered. */
  function Opens(log: seq<Entry>, r: ReaderId, h: Hash): nat {
    if log == [] then 0 else
      Opens(log[..|log| - 1], r, h) + if log[|log| - 1] == Opened(r, h) then 1 else 0
  }

  function Answers(log: seq<Entry>, r: ReaderId, h: Hash): nat {
    if log == [] then 0 else
      var e := log[|log| - 1];
      Answers(log[..|log| - 1], r, h) + if e.Answered? && e.r == r && e.h == h then 1 else 0
  }

  /** Data given to a reader has the requested hash; `no_data` is sent only when every peer asked
      has since answered negatively, failed or gone. */
  ghost predicate EntryOk(log: seq<Entry>, i: nat, sha: bytes -> Hash)
    requires i < |log|
  {
    log[i].Answered? ==>
      match log[i].data
      case Some(d) => d != [] && sha(d) == log[i].h
      case None => NobodyAsked(log[..i], log[i].h)
  }

  ghost predicate NobodyAsked(log: seq<Entry>, h: Hash) { forall p :: !AskedIn(log, p, h) }

  ghost predicate LogOk(log: seq<Entry>, sha: bytes -> Hash) {
    forall i :: 0 <= i < |log| ==> EntryOk(log, i, sha)
  }

  // ----- the invariant -----

  /** Every download is wished for, and no two peers download the same chunk. */
  ghost predicate Downloads(peers: map<PeerId, Peer>) {
    (forall p :: p in peers ==> NONE !in peers[p].wishlist) &&
    (forall p :: p in peers && peers[p].current != NONE ==> peers[p].current in peers[p].wishlist) &&
    (forall p, q :: p in peers && q in peers && p != q && peers[p].current != NONE
      ==> peers[p].current != peers[q].current)
  }

  predicate StillHopeful(req: Request, p: PeerId) {
    p in req.status && (req.status[p] == INVALID_STATUS || req.status[p] == ONLINE_CHUNK)
  }

  ghost predicate RequestOk(h: Hash, req: Request) {
    h != NONE && req.readers != {} && forall p :: p in req.potentials ==> StillHopeful(req, p)
  }

  predicate Potential(requests: map<Hash, Request>, p: PeerId, h: Hash) {
    h in requests && p in requests[h].potentials
  }

  predicate Waits(requests: map<Hash, Request>, r: ReaderId, h: Hash) {
    h in requests && r in requests[h].readers
  }

  /** The potential peers are those whose question is open. */
  ghost predicate Tracked(requests: map<Hash, Request>, log: seq<Entry>) {
    forall p, h :: Potential(requests, p, h) <==> AskedIn(log, p, h)
  }

  /** Every registered wish is either waiting or has been answered once. */
  ghost predicate Counted(requests: map<Hash, Request>, log: seq<Entry>) {
    forall r, h :: Opens(log, r, h) == Answers(log, r, h) + if Waits(requests, r, h) then 1 else 0
  }

  ghost predicate Books(requests: map<Hash, Request>, log: seq<Entry>, sha: bytes -> Hash) {
    (forall h :: h in requests ==> RequestOk(h, requests[h])) &&
    Tracked(requests, log) && Counted(requests, log) && LogOk(log, sha)
  }

  ghost predicate Inv(s: Share, sha: bytes -> Hash) { Downloads(s.peers) && Books(s.requests, s.log, sha) }

  // ----- one more log entry -----

  lemma Snoc(log: seq<Entry>, e: Entry, p: PeerId, r: ReaderId, h: Hash)
    ensures Opens(log + [e], r, h) == Opens(log, r, h) + if e == Opened(r, h) then 1 else 0
    ensures Answers(log + [e], r, h) ==
            Answers(log, r, h) + if e.Answered? && e.r == r && e.h == h then 1 else 0
    ensures AskedIn(log + [e], p, h) <==>
            (e == Asked(p, h) || (AskedIn(log, p, h) && !EndsQuestion(e, p, h)))
  {
    assert (log + [e])[..|log|] == log;
  }

  predicate EndsQuestion(e: Entry, p: PeerId, h: Hash) {
    e == Negative(p, h) || e == Failed(p, h) || e == Gone(p, h) || (e.Answered? && e.h == h)
  }

  lemma SnocOk(log: seq<Entry>, e: Entry, sha: bytes -> Hash)
    requires LogOk(log, sha)
    requires e.Answered? && e.data.Some? ==> e.data.value != [] && sha(e.data.value) == e.h
    requires e.Answered? && e.data.None? ==> NobodyAsked(log, e.h)
    ensures LogOk(log + [e], sha)
  {
    forall i | 0 <= i < |log + [e]| ensures EntryOk(log + [e], i, sha) {
      if i < |log| {
        assert EntryOk(log, i, sha) && (log + [e])[..i] == log[..i];
      } else {
        assert (log + [e])[..i] == log;
      }
    }
  }

  /** An entry about peers: who waits does not change, and the open questions change by one. */
  lemma PeerEntry(requests: map<Hash, Request>, requests': map<Hash, Request>, log: seq<Entry>, e: Entry,
                  sha: bytes -> Hash)
    requires Tracked(requests, log) && Counted(requests, log) && LogOk(log, sha)
    requires !e.Answered? && !e.Opened?
    requires forall r, h :: Waits(requests', r, h) <==> Waits(requests, r, h)
    requires forall p, h :: Potential(requests', p, h) <==>
               (e == Asked(p, h) || (Potential(requests, p, h) && !EndsQuestion(e, p, h)))
    ensures Tracked(requests', log + [e]) && Counted(requests', log + [e]) && LogOk(log + [e], sha)
  {
    SnocOk(log, e, sha);
    forall p, h ensures Potential(requests', p, h) <==> AskedIn(log + [e], p, h) {
      Snoc(log, e, p, 0, h);
    }
    forall r, h ensures Opens(log + [e], r, h) == Answers(log + [e], r, h) + if Waits(requests', r, h) then 1 else 0 {
      Snoc(log, e, [], r, h);
    }
  }

  // ----- asking -----

  lemma SendStatusInv(s: Share, p: PeerId, h: Hash, sha: bytes -> Hash)
    requires Inv(s, sha) && h in s.requests
    ensures Inv(SendStatus(s, p, h), sha)
  {
    if p in s.links {
      var s' := SendStatus(s, p, h);
      assert RequestOk(h, s.requests[h]);
      assert RequestOk(h, s'.requests[h]) by {
        forall q | q in s'.requests[h].potentials ensures StillHopeful(s'.requests[h], q) {
          assert q != p ==> StillHopeful(s.requests[h], q);
        }
      }
      PeerEntry(s.requests, s'.requests, s.log, Asked(p, h), sha);
    }
  }

  lemma {:induction false} AskPeersInv(s: Share, ps: seq<PeerId>, h: Hash, sha: bytes -> Hash)
    requires Inv(s, sha) && h in s.requests
    ensures Inv(AskPeers(s, ps, h), sha)
  {
    if ps != [] {
      AskPeersInv(s, ps[..|ps| - 1], h, sha);
      SendStatusInv(AskPeers(s, ps[..|ps| - 1], h), ps[|ps| - 1], h, sha);
    }
  }

  lemma {:induction false} AskForInv(s: Share, p: PeerId, hs: seq<Hash>, sha: bytes -> Hash)
    requires Inv(s, sha) && forall h :: h in hs ==> h in s.requests
    ensures Inv(AskFor(s, p, hs), sha)
  {
    if hs != [] {
      AskForInv(s, p, hs[..|hs| - 1], sha);
      SendStatusInv(AskFor(s, p, hs[..|hs| - 1]), p, hs[|hs| - 1], sha);
    }
  }

  lemma AddReaderInv(s: Share, r: ReaderId, h: Hash, sha: bytes -> Hash)
    requires Inv(s, sha) && h != NONE
    ensures Inv(AddReader(s, r, h), sha)
  {
    var s' := AddReader(s, r, h);
    if h in s.requests {
      assert RequestOk(h, s.requests[h]);
      assert forall p :: StillHopeful(s'.requests[h], p) <==> StillHopeful(s.requests[h], p);
    }
    assert forall p, g :: Potential(s'.requests, p, g) <==> Potential(s.requests, p, g);
    if Waits(s.requests, r, h) {
      assert s'.log == s.log;
      assert forall q, g :: Waits(s'.requests, q, g) <==> Waits(s.requests, q, g);
    } else {
      OpenedEntry(s.requests, s'.requests, s.log, r, h, sha);
    }
  }

  lemma OpenedEntry(requests: map<Hash, Request>, requests': map<Hash, Request>, log: seq<Entry>,
                    r: ReaderId, h: Hash, sha: bytes -> Hash)
    requires Tracked(requests, log) && Counted(requests, log) && LogOk(log, sha) && !Waits(requests, r, h)
    requires forall p, g :: Potential(requests', p, g) <==> Potential(requests, p, g)
    requires forall q, g :: Waits(requests', q, g) <==> Waits(requests, q, g) || (q == r && g == h)
    ensures var log' := log + [Opened(r, h)];
            Tracked(requests', log') && Counted(requests', log') && LogOk(log', sha)
  {
    var e := Opened(r, h);
    SnocOk(log, e, sha);
    forall p, g ensures Potential(requests', p, g) <==> AskedIn(log + [e], p, g) {
      Snoc(log, e, p, 0, g);
    }
    forall q, g ensures Opens(log + [e], q, g) == Answers(log + [e], q, g) + if Waits(requests', q, g) then 1 else 0 {
      Snoc(log, e, [], q, g);
    }
  }

  // ----- answering -----

  /** What telling several readers does to the log. */
  lemma {:induction false} TellLog(log: seq<Entry>, rs: seq<ReaderId>, h: Hash, data: Option<bytes>,
                                   p: PeerId, r: ReaderId, g: Hash)
    requires Distinct(rs)
    ensures var log' := TellAll(log, rs, h, data);
            Opens(log', r, g) == Opens(log, r, g) &&
            Answers(log', r, g) == Answers(log, r, g) + (if g == h && r in rs then 1 else 0) &&
            (AskedIn(log', p, g) <==> AskedIn(log, p, g) && (g != h || rs == []))
  {
    if rs != [] {
      var n := |rs| - 1;
      TellLog(log, rs[..n], h, data, p, r, g);
      InSnoc(rs, r);
      Snoc(TellAll(log, rs[..n], h, data), Answered(rs[n], h, data), p, r, g);
    }
  }

  lemma InSnoc(rs: seq<ReaderId>, r: ReaderId)
    requires rs != [] && Distinct(rs)
    ensures Distinct(rs[..|rs| - 1]) && rs[|rs| - 1] !in rs[..|rs| - 1]
    ensures r in rs <==> r in rs[..|rs| - 1] || r == rs[|rs| - 1]
  {
    assert rs == rs[..|rs| - 1] + [rs[|rs| - 1]];
  }

  lemma {:induction false} TellOk(log: seq<Entry>, rs: seq<ReaderId>, h: Hash, data: Option<bytes>, sha: bytes -> Hash)
    requires LogOk(log, sha) && Distinct(rs)
    requires data.Some? ==> data.value != [] && sha(data.value) == h
    requires data.None? ==> NobodyAsked(log, h)
    ensures LogOk(TellAll(log, rs, h, data), sha)
  {
    if rs != [] {
      var n := |rs| - 1;
      TellOk(log, rs[..n], h, data, sha);
      forall p ensures data.None? ==> !AskedIn(TellAll(log, rs[..n], h, data), p, h) {
        TellLog(log, rs[..n], h, data, p, 0, h);
      }
      SnocOk(TellAll(log, rs[..n], h, data), Answered(rs[n], h, data), sha);
    }
  }

  lemma SomeListed(rs: seq<ReaderId>, readers: set<ReaderId>)
    requires Lists(rs, readers)
    ensures rs == [] ==> readers == {}
  {
    if rs == [] {
      forall r ensures r !in readers { assert r !in rs; }
    }
  }

  lemma CloseInv(s: Share, h: Hash, data: Option<bytes>, o: Order, sha: bytes -> Hash)
    requires Inv(s, sha) && h in s.requests
    requires data.Some? ==> data.value != [] && sha(data.value) == h
    requires data.None? ==> s.requests[h].potentials == {}
    ensures Inv(Close(s, h, data, o), sha)
  {
    var s' := Close(s, h, data, o);
    var rs := o.readers(s.requests[h].readers);
    assert Lists(rs, s.requests[h].readers) && RequestOk(h, s.requests[h]);
    SomeListed(rs, s.requests[h].readers);
    if data.None? {
      forall p ensures !AskedIn(s.log, p, h) { assert !Potential(s.requests, p, h); }
    }
    TellOk(s.log, rs, h, data, sha);
    forall p, g ensures Potential(s'.requests, p, g) <==> AskedIn(s'.log, p, g) {
      TellLog(s.log, rs, h, data, p, 0, g);
      assert Potential(s'.requests, p, g) <==> g != h && Potential(s.requests, p, g);
    }
    forall r, g ensures Opens(s'.log, r, g) == Answers(s'.log, r, g) + if Waits(s'.requests, r, g) then 1 else 0 {
      TellLog(s.log, rs, h, data, [], r, g);
      assert Waits(s'.requests, r, g) <==> g != h && Waits(s.requests, r, g);
    }
  }

  lemma CheckRequestInv(s: Share, h: Hash, o: Order, sha: bytes -> Hash)
    requires Inv(s, sha) && h in s.requests
    ensures Inv(CheckRequest(s, h, o), sha)
  {
    if s.requests[h].potentials == {} {
      CloseInv(s, h, None, o, sha);
    }
  }

  /** Only the peer's own status may change when it is out. */
  lemma DiscountInv(s: Share, s0: Share, p: PeerId, h: Hash, e: Entry, sha: bytes -> Hash)
    requires Inv(s, sha) && h in s.requests && s0.peers == s.peers && s0.log == s.log
    requires exists status :: s0.requests == s.requests[h := s.requests[h].(status := status)] &&
               status - {p} == s.requests[h].status - {p}
    requires e == Negative(p, h) || e == Failed(p, h) || e == Gone(p, h)
    ensures h in s0.requests && Inv(Discount(s0, p, h, e), sha)
  {
    var s', req := Discount(s0, p, h, e), s.requests[h];
    assert RequestOk(h, req);
    assert RequestOk(h, s'.requests[h]) by {
      forall q | q in s'.requests[h].potentials ensures StillHopeful(s'.requests[h], q) {
        assert StillHopeful(req, q);
        assert q in (req.status - {p}) && (req.status - {p})[q] == req.status[q];
      }
    }
    PeerEntry(s.requests, s'.requests, s.log, e, sha);
  }

  lemma CheckedDiscountInv(s: Share, p: PeerId, h: Hash, s0: Share, e: Entry, o: Order, sha: bytes -> Hash)
    requires Inv(s, sha) && h in s.requests && s0.peers == s.peers && s0.log == s.log
    requires exists status :: s0.requests == s.requests[h := s.requests[h].(status := status)] &&
               status - {p} == s.requests[h].status - {p}
    requires e == Negative(p, h) || e == Failed(p, h) || e == Gone(p, h)
    ensures h in s0.requests && Inv(CheckRequest(Discount(s0, p, h, e), h, o), sha)
  {
    DiscountInv(s, s0, p, h, e, sha);
    CheckRequestInv(Discount(s0, p, h, e), h, o, sha);
  }

  lemma RemoveFromInv(s: Share, p: PeerId, h: Hash, o: Order, sha: bytes -> Hash)
    requires Inv(s, sha) && h in s.requests
    ensures Inv(RemoveFrom(s, p, h, o), sha)
  {
    var status := s.requests[h].status - {p};
    assert status - {p} == s.requests[h].status - {p};
    CheckedDiscountInv(s, p, h, ForgetStatus(s, p, h), Gone(p, h), o, sha);
  }

  lemma {:induction false} RemoveFromEachInv(s: Share, p: PeerId, hs: seq<Hash>, o: Order, sha: bytes -> Hash)
    requires Inv(s, sha) && Distinct(hs) && forall h :: h in hs ==> h in s.requests
    ensures Inv(RemoveFromEach(s, p, hs, o), sha)
  {
    if hs != [] {
      var n := |hs| - 1;
      assert forall i :: 0 <= i < n ==> hs[i] != hs[n];
      RemoveFromEachInv(s, p, hs[..n], o, sha);
      RemoveFromInv(RemoveFromEach(s, p, hs[..n], o), p, hs[n], o, sha);
    }
  }

  /** A bad reply: the status is stored, and the peer is out. */
  lemma BadReplyInv(s: Share, p: PeerId, h: Hash, st: int, e: Entry, o: Order, sha: bytes -> Hash)
    requires Inv(s, sha) && h in s.requests && (e == Negative(p, h) || e == Failed(p, h))
    ensures Inv(CheckRequest(Discount(SetStatus(s, p, h, st), p, h, e), h, o), sha)
  {
    var status := s.requests[h].status[p := st];
    assert status - {p} == s.requests[h].status - {p};
    CheckedDiscountInv(s, p, h, SetStatus(s, p, h, st), e, o, sha);
  }

  // ----- scheduling -----

  /** Log entries that only peers' downloads make. */
  lemma FetchBooks(requests: map<Hash, Request>, log: seq<Entry>, p: PeerId, h: Hash, sha: bytes -> Hash)
    requires Books(requests, log, sha)
    ensures Books(requests, log + [Fetch(p, h)], sha)
  {
    PeerEntry(requests, requests, log, Fetch(p, h), sha);
  }

  lemma {:induction false} SearchInv(s: Share, p: PeerId, wishes: seq<Hash>, sha: bytes -> Hash)
    requires Inv(s, sha) && p in s.peers && s.peers[p].current == NONE
    requires Distinct(wishes) && forall h :: h in wishes ==> h in s.peers[p].wishlist
    ensures Inv(Search(s, p, wishes), sha)
    decreases |wishes|
  {
    if wishes != [] {
      var h, peer := wishes[0], s.peers[p];
      assert forall g :: g in wishes[1..] ==> g in wishes && g != h;
      if h !in s.requests {
        SearchInv(s.(peers := s.peers[p := peer.(wishlist := peer.wishlist - {h})]), p, wishes[1..], sha);
      } else if Taken(s, h) {
        SearchInv(s, p, wishes[1..], sha);
      } else {
        FetchBooks(s.requests, s.log, p, h, sha);
      }
    }
  }

  lemma CheckWorkInv(s: Share, p: PeerId, o: Order, sha: bytes -> Hash)
    requires Inv(s, sha) && p in s.peers
    ensures Inv(CheckWork(s, p, o), sha)
  {
    assert Lists(o.hashes(s.peers[p].wishlist), s.peers[p].wishlist);
    if p in s.links && s.peers[p].current == NONE {
      SearchInv(s, p, o.hashes(s.peers[p].wishlist), sha);
    }
  }

  lemma {:induction false} CheckEachInv(s: Share, ps: seq<PeerId>, o: Order, sha: bytes -> Hash)
    requires Inv(s, sha) && forall p :: p in ps ==> p in s.peers
    ensures Inv(CheckEach(s, ps, o), sha)
  {
    if ps != [] {
      var n := |ps| - 1;
      CheckEachInv(s, ps[..n], o, sha);
      assert ps[n] in CheckEach(s, ps[..n], o).peers.Keys;
      CheckWorkInv(CheckEach(s, ps[..n], o), ps[n], o, sha);
    }
  }

  lemma CheckPeersInv(s: Share, o: Order, sha: bytes -> Hash)
    requires Inv(s, sha)
    ensures Inv(CheckPeers(s, o), sha)
  {
    assert Lists(o.peers(s.peers.Keys), s.peers.Keys);
    CheckEachInv(s, o.peers(s.peers.Keys), o, sha);
  }

  // ----- events -----

  lemma WishInv(s: Share, p: PeerId, h: Hash, sha: bytes -> Hash)
    requires Inv(s, sha) && p in s.peers && h in s.requests
    ensures Inv(Wish(SetStatus(s, p, h, ONLINE_CHUNK), p, h), sha)
  {
    var s' := Wish(SetStatus(s, p, h, ONLINE_CHUNK), p, h);
    assert RequestOk(h, s.requests[h]);
    assert RequestOk(h, s'.requests[h]) by {
      forall q | q in s'.requests[h].potentials ensures StillHopeful(s'.requests[h], q) {
        assert StillHopeful(s.requests[h], q);
      }
    }
    assert forall q, g :: Potential(s'.requests, q, g) <==> Potential(s.requests, q, g);
    assert forall r, g :: Waits(s'.requests, r, g) <==> Waits(s.requests, r, g);
  }

  lemma UnwishInv(s: Share, p: PeerId, h: Hash, sha: bytes -> Hash)
    requires Inv(s, sha) && p in s.peers
    ensures Inv(Unwish(s, p, h), sha)
  {
  }

  lemma RestartInv(s: Share, p: PeerId, sha: bytes -> Hash)
    requires Inv(s, sha)
    ensures Inv(s.(peers := s.peers[p := Peer(if p in s.peers then s.peers[p].wishlist else {}, NONE)]), sha)
  {
  }

  /** Every event keeps the invariant. */
  lemma HandleInv(s: Share, e: Event, sha: bytes -> Hash)
    requires Inv(s, sha) && CanHappen(s, e)
    ensures Inv(Handle(s, e, sha), sha)
  {
    match e
    case EvRequest(r, h, o) =>
      AddReaderInv(s, r, h, sha);
      AskPeersInv(AddReader(s, r, h), o.peers(s.peers.Keys), h, sha);
    case EvStatusReply(p, h, st, o) =>
      if h in s.requests {
        if st == ONLINE_CHUNK {
          WishInv(s, p, h, sha);
          CheckPeersInv(Wish(SetStatus(s, p, h, st), p, h), o, sha);
        } else {
          BadReplyInv(s, p, h, st, Negative(p, h), o, sha);
        }
      }
    case EvChunkReply(p, h, data, o) =>
      if h in s.requests {
        UnwishInv(s, p, h, sha);
        GoodOrBadInv(Unwish(s, p, h), p, h, data, o, sha);
      }
    case EvConnected(p, o) =>
      RestartInv(s, p, sha);
      AskForInv(s.(peers := s.peers[p := Peer(if p in s.peers then s.peers[p].wishlist else {}, NONE)]),
                p, OpenRequests(s, o), sha);
    case EvDisconnected(p, o) =>
      if p in s.peers {
        RemoveFromEachInv(s, p, OpenRequests(s, o), o, sha);
      }
    case EvInConnected(p) =>
      RestartInv(s, p, sha);
    case EvLink(_) =>
  }

  lemma GoodOrBadInv(s: Share, p: PeerId, h: Hash, data: bytes, o: Order, sha: bytes -> Hash)
    requires Inv(s, sha) && h in s.requests
    ensures if data == [] || sha(data) != h
            then Inv(CheckRequest(Discount(SetStatus(s, p, h, LOST_CHUNK), p, h, Failed(p, h)), h, o), sha)
            else Inv(CheckPeers(Close(s, h, Some(data), o), o), sha)
  {
    if data == [] || sha(data) != h {
      BadReplyInv(s, p, h, LOST_CHUNK, Failed(p, h), o, sha);
    } else {
      CloseInv(s, h, Some(data), o, sha);
      CheckPeersInv(Close(s, h, Some(data), o), o, sha);
    }
  }

  lemma NothingYet(s: Share, sha: bytes -> Hash)
    requires s.peers.Keys == {} && s.requests.Keys == {} && s.log == []
    ensures Inv(s, sha)
  {
    assert forall p, h :: !Potential(s.requests, p, h) && !AskedIn([], p, h);
  }

  /** Over every run: downloads are exclusive and wished for, a potential peer's status is unknown
      or online, every reader is answered exactly once or still waiting, data has the requested
      hash, and `no_data` comes only when nobody's answer is outstanding. */
  lemma {:induction false} RunInv(es: seq<Event>, sha: bytes -> Hash)
    ensures Run(EMPTY, es, sha).Some? ==> Inv(Run(EMPTY, es, sha).value, sha)
  {
    if es == [] {
      NothingYet(EMPTY, sha);
    } else {
      var n := |es| - 1;
      RunInv(es[..n], sha);
      if Run(EMPTY, es, sha).Some? {
        HandleInv(Run(EMPTY, es[..n], sha).value, es[n], sha);
      }
    }
  }
}
