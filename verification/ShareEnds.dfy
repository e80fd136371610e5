/** When a request ends, who is asked, and what an event does to one peer and one chunk: read off the
    log and the tables, over every event and every run. */
module ShareEnds {
  import opened Bytes
  import opened Listing
  import opened ChunkShare
  import opened ShareSafety
  import opened ShareScheduling

  // ----- asked since the request was opened -----

  /** By the log, somebody has been asked for `h` since readers were last told about it. */
  predicate EverAsked(log: seq<Entry>, h: Hash) {
    if log == [] then false else
      var rest := log[..|log| - 1];
      match log[|log| - 1]
      case Asked(_, g) => g == h || EverAsked(rest, h)
      case Answered(_, g, _) => g != h && EverAsked(rest, h)
      case _ => EverAsked(rest, h)
  }

  lemma EverSnoc(log: seq<Entry>, e: Entry, h: Hash)
    ensures EverAsked(log + [e], h) <==>
            (e.Asked? && e.h == h) || (EverAsked(log, h) && !(e.Answered? && e.h == h))
  {
    assert (log + [e])[..|log|] == log;
  }

  /** Whose question is open has been asked. */
  lemma {:induction false} AskedIsEver(log: seq<Entry>, p: PeerId, h: Hash)
    requires AskedIn(log, p, h)
    ensures EverAsked(log, h)
  {
    var n := |log| - 1;
    if AskedIn(log[..n], p, h) {
      AskedIsEver(log[..n], p, h);
    }
  }

  predicate HasPotential(requests: map<Hash, Request>, h: Hash) {
    h in requests && requests[h].potentials != {}
  }

  /** Requests have readers, and those somebody was asked for have a potential peer, except for
      the ones just being looked at. */
  ghost predicate Live(s: Share, but: set<Hash>) {
    (forall h :: h in s.requests ==> s.requests[h].readers != {}) &&
    (forall h :: EverAsked(s.log, h) ==> HasPotential(s.requests, h) || (h in but && h in s.requests))
  }

  // ----- every step keeps it -----

  lemma SendStatusLive(s: Share, p: PeerId, h: Hash)
    requires Live(s, {}) && h in s.requests
    ensures Live(SendStatus(s, p, h), {})
  {
    if p in s.links {
      var r := SendStatus(s, p, h);
      assert p in r.requests[h].potentials;
      forall g | EverAsked(r.log, g) ensures HasPotential(r.requests, g) {
        EverSnoc(s.log, Asked(p, h), g);
      }
    }
  }

  lemma {:induction false} AskPeersLive(s: Share, ps: seq<PeerId>, h: Hash)
    requires Live(s, {}) && h in s.requests
    ensures Live(AskPeers(s, ps, h), {})
  {
    if ps != [] {
      AskPeersLive(s, ps[..|ps| - 1], h);
      SendStatusLive(AskPeers(s, ps[..|ps| - 1], h), ps[|ps| - 1], h);
    }
  }

  lemma {:induction false} AskForLive(s: Share, p: PeerId, hs: seq<Hash>)
    requires Live(s, {}) && forall h :: h in hs ==> h in s.requests
    ensures Live(AskFor(s, p, hs), {})
  {
    if hs != [] {
      AskForLive(s, p, hs[..|hs| - 1]);
      SendStatusLive(AskFor(s, p, hs[..|hs| - 1]), p, hs[|hs| - 1]);
    }
  }

  lemma AddReaderLive(s: Share, rd: ReaderId, h: Hash)
    requires Live(s, {})
    ensures Live(AddReader(s, rd, h), {})
  {
    var r := AddReader(s, rd, h);
    assert rd in r.requests[h].readers;
    forall g | EverAsked(r.log, g) ensures HasPotential(r.requests, g) {
      if r.log != s.log {
        EverSnoc(s.log, Opened(rd, h), g);
      }
      assert HasPotential(s.requests, g);
    }
  }

  lemma {:induction false} TellEver(log: seq<Entry>, rs: seq<ReaderId>, h: Hash, data: Option<bytes>, g: Hash)
    ensures EverAsked(TellAll(log, rs, h, data), g) <==> EverAsked(log, g) && (g != h || rs == [])
  {
    if rs != [] {
      var n := |rs| - 1;
      TellEver(log, rs[..n], h, data, g);
      EverSnoc(TellAll(log, rs[..n], h, data), Answered(rs[n], h, data), g);
    }
  }

  lemma CloseLive(s: Share, h: Hash, data: Option<bytes>, o: Order)
    requires Live(s, {h}) && h in s.requests
    ensures Live(Close(s, h, data, o), {})
  {
    var r, rs := Close(s, h, data, o), o.readers(s.requests[h].readers);
    assert Lists(rs, s.requests[h].readers);
    SomeListed(rs, s.requests[h].readers);
    forall g | EverAsked(r.log, g) ensures HasPotential(r.requests, g) {
      TellEver(s.log, rs, h, data, g);
    }
  }

  lemma CheckRequestLive(s: Share, h: Hash, o: Order)
    requires Live(s, {h}) && h in s.requests
    ensures Live(CheckRequest(s, h, o), {})
  {
    if s.requests[h].potentials == {} {
      CloseLive(s, h, None, o);
    }
  }

  /** One peer less is waited for. The status does not matter. */
  lemma DiscountLive(s: Share, s0: Share, p: PeerId, h: Hash, e: Entry)
    requires Live(s, {}) && h in s.requests && s0.log == s.log && e.h == h
    requires exists status :: s0.requests == s.requests[h := s.requests[h].(status := status)]
    requires e.Negative? || e.Failed? || e.Gone?
    ensures h in s0.requests && Live(Discount(s0, p, h, e), {h})
  {
    var r := Discount(s0, p, h, e);
    forall g | EverAsked(r.log, g) ensures HasPotential(r.requests, g) || (g in {h} && g in r.requests) {
      EverSnoc(s.log, e, g);
      assert HasPotential(s.requests, g);
    }
  }

  lemma RemoveFromLive(s: Share, p: PeerId, h: Hash, o: Order)
    requires Live(s, {}) && h in s.requests
    ensures Live(RemoveFrom(s, p, h, o), {})
  {
    DiscountLive(s, ForgetStatus(s, p, h), p, h, Gone(p, h));
    CheckRequestLive(Discount(ForgetStatus(s, p, h), p, h, Gone(p, h)), h, o);
  }

  lemma {:induction false} RemoveFromEachLive(s: Share, p: PeerId, hs: seq<Hash>, o: Order)
    requires Live(s, {}) && Distinct(hs) && forall h :: h in hs ==> h in s.requests
    ensures Live(RemoveFromEach(s, p, hs, o), {})
  {
    if hs != [] {
      var n := |hs| - 1;
      assert forall i :: 0 <= i < n ==> hs[i] != hs[n];
      RemoveFromEachLive(s, p, hs[..n], o);
      RemoveFromLive(RemoveFromEach(s, p, hs[..n], o), p, hs[n], o);
    }
  }

  lemma BadReplyLive(s: Share, p: PeerId, h: Hash, st: int, e: Entry, o: Order)
    requires Live(s, {}) && h in s.requests && (e == Negative(p, h) || e == Failed(p, h))
    ensures Live(CheckRequest(Discount(SetStatus(s, p, h, st), p, h, e), h, o), {})
  {
    DiscountLive(s, SetStatus(s, p, h, st), p, h, e);
    CheckRequestLive(Discount(SetStatus(s, p, h, st), p, h, e), h, o);
  }

  lemma {:induction false} SearchLive(s: Share, p: PeerId, wishes: seq<Hash>)
    requires Live(s, {}) && p in s.peers
    ensures Live(Search(s, p, wishes), {})
    decreases |wishes|
  {
    if wishes != [] {
      var h, peer := wishes[0], s.peers[p];
      if h !in s.requests {
        SearchLive(s.(peers := s.peers[p := peer.(wishlist := peer.wishlist - {h})]), p, wishes[1..]);
      } else if Taken(s, h) {
        SearchLive(s, p, wishes[1..]);
      } else {
        forall g ensures EverAsked(s.log + [Fetch(p, h)], g) <==> EverAsked(s.log, g) {
          EverSnoc(s.log, Fetch(p, h), g);
        }
      }
    }
  }

  lemma {:induction false} CheckEachLive(s: Share, ps: seq<PeerId>, o: Order)
    requires Live(s, {}) && forall p :: p in ps ==> p in s.peers
    ensures Live(CheckEach(s, ps, o), {})
  {
    if ps != [] {
      var n := |ps| - 1;
      var s' := CheckEach(s, ps[..n], o);
      CheckEachLive(s, ps[..n], o);
      assert ps[n] in s'.peers.Keys;
      SearchLive(s', ps[n], o.hashes(s'.peers[ps[n]].wishlist));
    }
  }

  lemma CheckPeersLive(s: Share, o: Order)
    requires Live(s, {})
    ensures Live(CheckPeers(s, o), {})
  {
    assert Lists(o.peers(s.peers.Keys), s.peers.Keys);
    CheckEachLive(s, o.peers(s.peers.Keys), o);
  }

  lemma ChunkReplyLive(s: Share, p: PeerId, h: Hash, data: bytes, sha: bytes -> Hash, o: Order)
    requires Live(s, {}) && p in s.peers
    ensures Live(ChunkReply(s, p, h, data, sha, o), {})
  {
    if h in s.requests {
      var s' := Unwish(s, p, h);
      if data == [] || sha(data) != h {
        BadReplyLive(s', p, h, LOST_CHUNK, Failed(p, h), o);
      } else {
        CloseLive(s', h, Some(data), o);
        CheckPeersLive(Close(s', h, Some(data), o), o);
      }
    }
  }

  /** Every event. */
  lemma HandleLive(s: Share, e: Event, sha: bytes -> Hash)
    requires Live(s, {}) && CanHappen(s, e)
    ensures Live(Handle(s, e, sha), {})
  {
    match e
    case EvRequest(r, h, o) =>
      AddReaderLive(s, r, h);
      AskPeersLive(AddReader(s, r, h), o.peers(s.peers.Keys), h);
    case EvStatusReply(p, h, st, o) =>
      if h in s.requests {
        if st == ONLINE_CHUNK {
          CheckPeersLive(Wish(SetStatus(s, p, h, st), p, h), o);
        } else {
          BadReplyLive(s, p, h, st, Negative(p, h), o);
        }
      }
    case EvChunkReply(p, h, data, o) =>
      ChunkReplyLive(s, p, h, data, sha, o);
    case EvConnected(p, o) =>
      var wishlist := if p in s.peers then s.peers[p].wishlist else {};
      AskForLive(s.(peers := s.peers[p := Peer(wishlist, NONE)]), p, OpenRequests(s, o));
    case EvDisconnected(p, o) =>
      if p in s.peers {
        RemoveFromEachLive(s, p, OpenRequests(s, o), o);
      }
    case EvInConnected(_) =>
    case EvLink(_) =>
  }

  lemma {:induction false} RunLive(es: seq<Event>, sha: bytes -> Hash)
    ensures Run(EMPTY, es, sha).Some? ==> Live(Run(EMPTY, es, sha).value, {})
  {
    if es != [] {
      var n := |es| - 1;
      RunLive(es[..n], sha);
      if Run(EMPTY, es, sha).Some? {
        HandleLive(Run(EMPTY, es[..n], sha).value, es[n], sha);
      }
    }
  }

  lemma SomePotential(s: Share, h: Hash, sha: bytes -> Hash) returns (p: PeerId)
    requires Inv(s, sha) && HasPotential(s.requests, h)
    ensures AskedIn(s.log, p, h)
  {
    p :| p in s.requests[h].potentials;
    assert Potential(s.requests, p, h);
  }

  ghost predicate OpenQuestion(log: seq<Entry>, h: Hash) { exists p :: AskedIn(log, p, h) }

  lemma QuestionOpen(s: Share, h: Hash, sha: bytes -> Hash)
    requires Inv(s, sha) && Live(s, {})
    ensures EverAsked(s.log, h) <==> OpenQuestion(s.log, h)
    ensures EverAsked(s.log, h) ==> h in s.requests
  {
    if EverAsked(s.log, h) {
      var p := SomePotential(s, h, sha);
    }
    forall p | AskedIn(s.log, p, h) ensures EverAsked(s.log, h) {
      AskedIsEver(s.log, p, h);
    }
  }

  /** Over every run: whenever somebody has been asked for a chunk since readers were last told
      about it, some question about it is still open, and so is the request. */
  lemma RequestsEnd(es: seq<Event>, sha: bytes -> Hash, h: Hash)
    requires Run(EMPTY, es, sha).Some?
    ensures var s := Run(EMPTY, es, sha).value;
            (EverAsked(s.log, h) <==> OpenQuestion(s.log, h)) && (EverAsked(s.log, h) ==> h in s.requests)
  {
    RunLive(es, sha);
    RunInv(es, sha);
    QuestionOpen(Run(EMPTY, es, sha).value, h, sha);
  }

  // ----- what one event adds to the log -----

  /** The log has grown, readers were told only about requests that are gone, and no request is
      new. */
  ghost predicate Grew(s: Share, r: Share) {
    r.requests.Keys <= s.requests.Keys && |s.log| <= |r.log| && r.log[..|s.log|] == s.log &&
    forall i :: |s.log| <= i < |r.log| ==> !r.log[i].Opened? && (r.log[i].Answered? ==> r.log[i].h !in r.requests)
  }

  lemma GrewTrans(s: Share, m: Share, r: Share)
    requires Grew(s, m) && Grew(m, r)
    ensures Grew(s, r)
  {
    assert r.log[..|s.log|] == r.log[..|m.log|][..|s.log|];
    forall i | |s.log| <= i < |r.log|
      ensures !r.log[i].Opened? && (r.log[i].Answered? ==> r.log[i].h !in r.requests)
    {
      if i < |m.log| {
        assert r.log[i] == r.log[..|m.log|][i] == m.log[i];
      }
    }
  }

  lemma GrewOne(s: Share, r: Share, e: Entry)
    requires r.log == s.log + [e] && r.requests.Keys == s.requests.Keys && !e.Opened? && !e.Answered?
    ensures Grew(s, r)
  {
  }

  lemma {:induction false} TellEntries(log: seq<Entry>, rs: seq<ReaderId>, h: Hash, data: Option<bytes>)
    ensures var r := TellAll(log, rs, h, data);
            |log| <= |r| && r[..|log|] == log && forall i :: |log| <= i < |r| ==> r[i].Answered? && r[i].h == h
  {
    if rs != [] {
      TellEntries(log, rs[..|rs| - 1], h, data);
    }
  }

  lemma CloseGrew(s: Share, h: Hash, data: Option<bytes>, o: Order)
    requires h in s.requests
    ensures Grew(s, Close(s, h, data, o))
  {
    TellEntries(s.log, o.readers(s.requests[h].readers), h, data);
  }

  lemma CheckRequestGrew(s: Share, h: Hash, o: Order)
    requires h in s.requests
    ensures Grew(s, CheckRequest(s, h, o))
  {
    if s.requests[h].potentials == {} {
      CloseGrew(s, h, None, o);
    }
  }

  lemma DiscountGrew(s: Share, s0: Share, p: PeerId, h: Hash, e: Entry, o: Order)
    requires h in s0.requests && s0.requests.Keys == s.requests.Keys && s0.log == s.log
    requires e.Negative? || e.Failed? || e.Gone?
    ensures Grew(s, CheckRequest(Discount(s0, p, h, e), h, o))
  {
    GrewOne(s, Discount(s0, p, h, e), e);
    CheckRequestGrew(Discount(s0, p, h, e), h, o);
    GrewTrans(s, Discount(s0, p, h, e), CheckRequest(Discount(s0, p, h, e), h, o));
  }

  lemma {:induction false} RemoveFromEachGrew(s: Share, p: PeerId, hs: seq<Hash>, o: Order)
    requires Distinct(hs) && forall h :: h in hs ==> h in s.requests
    ensures Grew(s, RemoveFromEach(s, p, hs, o))
  {
    if hs != [] {
      var n := |hs| - 1;
      assert forall i :: 0 <= i < n ==> hs[i] != hs[n];
      var m := RemoveFromEach(s, p, hs[..n], o);
      RemoveFromEachGrew(s, p, hs[..n], o);
      DiscountGrew(m, ForgetStatus(m, p, hs[n]), p, hs[n], Gone(p, hs[n]), o);
      GrewTrans(s, m, RemoveFromEach(s, p, hs, o));
    }
  }

  lemma {:induction false} SearchGrew(s: Share, p: PeerId, wishes: seq<Hash>)
    requires p in s.peers
    ensures Grew(s, Search(s, p, wishes))
    decreases |wishes|
  {
    if wishes != [] {
      var h, peer := wishes[0], s.peers[p];
      if h !in s.requests {
        SearchGrew(s.(peers := s.peers[p := peer.(wishlist := peer.wishlist - {h})]), p, wishes[1..]);
      } else if Taken(s, h) {
        SearchGrew(s, p, wishes[1..]);
      } else {
        GrewOne(s, Search(s, p, wishes), Fetch(p, h));
      }
    }
  }

  lemma {:induction false} CheckEachGrew(s: Share, ps: seq<PeerId>, o: Order)
    requires forall p :: p in ps ==> p in s.peers
    ensures Grew(s, CheckEach(s, ps, o))
  {
    if ps != [] {
      var n := |ps| - 1;
      var m := CheckEach(s, ps[..n], o);
      CheckEachGrew(s, ps[..n], o);
      assert ps[n] in m.peers.Keys;
      SearchGrew(m, ps[n], o.hashes(m.peers[ps[n]].wishlist));
      GrewTrans(s, m, CheckEach(s, ps, o));
    }
  }

  lemma CheckPeersGrew(s: Share, o: Order)
    ensures Grew(s, CheckPeers(s, o))
  {
    assert Lists(o.peers(s.peers.Keys), s.peers.Keys);
    CheckEachGrew(s, o.peers(s.peers.Keys), o);
  }

  lemma {:induction false} AskForGrew(s: Share, p: PeerId, hs: seq<Hash>)
    requires forall h :: h in hs ==> h in s.requests
    ensures Grew(s, AskFor(s, p, hs))
  {
    if hs != [] {
      var n := |hs| - 1;
      var m := AskFor(s, p, hs[..n]);
      AskForGrew(s, p, hs[..n]);
      if p in m.links {
        GrewOne(m, AskFor(s, p, hs), Asked(p, hs[n]));
      }
      GrewTrans(s, m, AskFor(s, p, hs));
    }
  }

  lemma {:induction false} AskPeersGrew(s: Share, ps: seq<PeerId>, h: Hash)
    requires h in s.requests
    ensures Grew(s, AskPeers(s, ps, h))
  {
    if ps != [] {
      var n := |ps| - 1;
      var m := AskPeers(s, ps[..n], h);
      AskPeersGrew(s, ps[..n], h);
      if ps[n] in m.links {
        GrewOne(m, AskPeers(s, ps, h), Asked(ps[n], h));
      }
      GrewTrans(s, m, AskPeers(s, ps, h));
    }
  }

  lemma ChunkReplyGrew(s: Share, p: PeerId, h: Hash, data: bytes, sha: bytes -> Hash, o: Order)
    requires p in s.peers
    ensures Grew(s, ChunkReply(s, p, h, data, sha, o))
  {
    if h in s.requests {
      var s' := Unwish(s, p, h);
      if data == [] || sha(data) != h {
        DiscountGrew(s, SetStatus(s', p, h, LOST_CHUNK), p, h, Failed(p, h), o);
      } else {
        CloseGrew(s', h, Some(data), o);
        CheckPeersGrew(Close(s', h, Some(data), o), o);
        GrewTrans(s, Close(s', h, Some(data), o), CheckPeers(Close(s', h, Some(data), o), o));
      }
    }
  }

  lemma HandleGrew(s: Share, e: Event, sha: bytes -> Hash)
    requires CanHappen(s, e) && !e.EvRequest?
    ensures Grew(s, Handle(s, e, sha))
  {
    match e
    case EvStatusReply(p, h, st, o) =>
      if h in s.requests {
        if st == ONLINE_CHUNK {
          var w := Wish(SetStatus(s, p, h, st), p, h);
          CheckPeersGrew(w, o);
          GrewTrans(s, w, CheckPeers(w, o));
        } else {
          DiscountGrew(s, SetStatus(s, p, h, st), p, h, Negative(p, h), o);
        }
      }
    case EvChunkReply(p, h, data, o) =>
      ChunkReplyGrew(s, p, h, data, sha, o);
    case EvConnected(p, o) =>
      var wishlist := if p in s.peers then s.peers[p].wishlist else {};
      AskForGrew(s.(peers := s.peers[p := Peer(wishlist, NONE)]), p, OpenRequests(s, o));
    case EvDisconnected(p, o) =>
      if p in s.peers {
        RemoveFromEachGrew(s, p, OpenRequests(s, o), o);
      }
    case EvInConnected(_) =>
    case EvLink(_) =>
  }

  lemma {:induction false} GrewKeeps(s: Share, r: Share, log: seq<Entry>, h: Hash, rd: ReaderId)
    requires Grew(s, r) && |s.log| <= |log| <= |r.log| && log == r.log[..|log|]
    ensures Opens(log, rd, h) == Opens(s.log, rd, h)
    ensures h in r.requests && EverAsked(s.log, h) ==> EverAsked(log, h)
    decreases |log|
  {
    if |log| == |s.log| {
      assert log == s.log;
    } else {
      var n := |log| - 1;
      assert log[..n] == r.log[..n] && log[n] == r.log[n];
      GrewKeeps(s, r, log[..n], h, rd);
    }
  }

  // ----- how a request ends -----

  /** The reader has been told about the chunk once more. */
  ghost predicate ToldOnce(s: Share, r: Share, h: Hash) {
    forall rd :: Waits(s.requests, rd, h) ==> Answers(r.log, rd, h) == Answers(s.log, rd, h) + 1
  }

  lemma ClosedTold(s: Share, r: Share, h: Hash, sha: bytes -> Hash)
    requires Inv(s, sha) && Inv(r, sha) && h !in r.requests
    requires forall rd :: Opens(r.log, rd, h) == Opens(s.log, rd, h)
    ensures ToldOnce(s, r, h)
  {
    forall rd | Waits(s.requests, rd, h) ensures Answers(r.log, rd, h) == Answers(s.log, rd, h) + 1 {
      assert Opens(s.log, rd, h) == Answers(s.log, rd, h) + 1;
      assert !Waits(r.requests, rd, h);
    }
  }

  /** A new request asks more questions and closes none. */
  lemma RequestKeepsOpen(s: Share, rd: ReaderId, h: Hash, o: Order, g: Hash)
    requires EverAsked(s.log, g) && g in s.requests
    ensures var r := RequestChunk(s, rd, h, o); g in r.requests && EverAsked(r.log, g)
  {
    var m, r := AddReader(s, rd, h), RequestChunk(s, rd, h, o);
    if m.log != s.log {
      EverSnoc(s.log, Opened(rd, h), g);
    }
    AskPeersGrew(m, o.peers(s.peers.Keys), h);
    assert g in m.requests && r.requests.Keys == m.requests.Keys;
    assert r.log[..|r.log|] == r.log;
    GrewKeeps(m, r, r.log, g, rd);
  }

  /** Whatever the event: a request that somebody was asked for stays open exactly if some question
      about it is open afterwards, and otherwise all its readers are told, once. */
  lemma RequestEndsIff(s: Share, e: Event, sha: bytes -> Hash, h: Hash)
    requires Inv(s, sha) && Live(s, {}) && CanHappen(s, e) && EverAsked(s.log, h)
    ensures var r := Handle(s, e, sha);
            (h in r.requests <==> OpenQuestion(r.log, h)) && (h !in r.requests ==> ToldOnce(s, r, h))
  {
    var r := Handle(s, e, sha);
    HandleInv(s, e, sha);
    HandleLive(s, e, sha);
    QuestionOpen(s, h, sha);
    QuestionOpen(r, h, sha);
    assert r.log[..|r.log|] == r.log;
    if e.EvRequest? {
      RequestKeepsOpen(s, e.r, e.h, e.o, h);
    } else {
      HandleGrew(s, e, sha);
      forall rd ensures Opens(r.log, rd, h) == Opens(s.log, rd, h) {
        GrewKeeps(s, r, r.log, h, rd);
      }
      GrewKeeps(s, r, r.log, h, 0);
      if h !in r.requests {
        ClosedTold(s, r, h, sha);
      }
    }
  }
}
