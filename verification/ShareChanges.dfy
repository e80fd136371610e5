/** What every event changes: exactly which questions are open after it, who wishes for what, and which
    downloads start. */
module ShareChanges {
  import opened Bytes
  import opened Listing
  import opened ChunkShare
  import opened ShareSafety
  import opened ShareScheduling
  import opened ShareEffects
  import opened ShareEnds

  // ----- questions -----

  lemma CloseQuestions(s: Share, h: Hash, data: Option<bytes>, o: Order, q: PeerId, g: Hash)
    requires h in s.requests
    ensures Potential(Close(s, h, data, o).requests, q, g) <==> g != h && Potential(s.requests, q, g)
  {
  }

  /** Giving a request up closes no question. */
  lemma CheckRequestQuestions(s: Share, h: Hash, o: Order, q: PeerId, g: Hash)
    requires h in s.requests
    ensures Potential(CheckRequest(s, h, o).requests, q, g) <==> Potential(s.requests, q, g)
  {
  }

  lemma {:induction false} AskPeersQuestions(s: Share, ps: seq<PeerId>, h: Hash, q: PeerId, g: Hash)
    requires h in s.requests
    ensures var r := AskPeers(s, ps, h);
            r.links == s.links &&
            (Potential(r.requests, q, g) <==> Potential(s.requests, q, g) || (g == h && q in ps && q in s.links))
  {
    if ps != [] {
      AskPeersQuestions(s, ps[..|ps| - 1], h, q, g);
      assert ps == ps[..|ps| - 1] + [ps[|ps| - 1]];
    }
  }

  lemma {:induction false} AskForQuestions(s: Share, p: PeerId, hs: seq<Hash>, q: PeerId, g: Hash)
    requires forall h :: h in hs ==> h in s.requests
    ensures var r := AskFor(s, p, hs);
            r.links == s.links &&
            (Potential(r.requests, q, g) <==> Potential(s.requests, q, g) || (q == p && g in hs && p in s.links))
  {
    if hs != [] {
      AskForQuestions(s, p, hs[..|hs| - 1], q, g);
      assert hs == hs[..|hs| - 1] + [hs[|hs| - 1]];
    }
  }

  lemma RemoveQuestion(s: Share, p: PeerId, h: Hash, o: Order, q: PeerId, g: Hash)
    requires h in s.requests
    ensures Potential(RemoveFrom(s, p, h, o).requests, q, g) <==> Potential(s.requests, q, g) && !(q == p && g == h)
  {
    CheckRequestQuestions(Discount(ForgetStatus(s, p, h), p, h, Gone(p, h)), h, o, q, g);
  }

  lemma {:induction false} RemoveQuestions(s: Share, p: PeerId, hs: seq<Hash>, o: Order, q: PeerId, g: Hash)
    requires Distinct(hs) && forall h :: h in hs ==> h in s.requests
    ensures Potential(RemoveFromEach(s, p, hs, o).requests, q, g) <==>
            Potential(s.requests, q, g) && !(q == p && g in hs)
  {
    if hs != [] {
      var n := |hs| - 1;
      var h, rest := hs[n], hs[..n];
      assert forall i :: 0 <= i < n ==> hs[i] != h;
      assert g in hs <==> g in rest || g == h by {
        assert hs == rest + [h];
      }
      RemoveQuestions(s, p, rest, o, q, g);
      RemoveQuestion(RemoveFromEach(s, p, rest, o), p, h, o, q, g);
    }
  }

  /** Which questions are open after an event: the new ones of requests and connections, and of the old
      ones all but those it answers. */
  predicate OpenAfter(s: Share, e: Event, sha: bytes -> Hash, q: PeerId, g: Hash) {
    match e
    case EvRequest(_, h, _) => AskedIn(s.log, q, g) || (g == h && q in s.peers && q in s.links)
    case EvStatusReply(p, h, st, _) => AskedIn(s.log, q, g) && !(q == p && g == h && st != ONLINE_CHUNK)
    case EvChunkReply(p, h, data, _) =>
      AskedIn(s.log, q, g) && !(g == h && (q == p || (data != [] && sha(data) == h)))
    case EvConnected(p, _) => AskedIn(s.log, q, g) || (q == p && q in s.links && g in s.requests)
    case EvDisconnected(p, _) => AskedIn(s.log, q, g) && !(q == p && p in s.peers)
    case _ => AskedIn(s.log, q, g)
  }

  lemma StatusQuestions(s: Share, p: PeerId, h: Hash, st: int, o: Order, q: PeerId, g: Hash)
    requires p in s.peers
    ensures Potential(StatusReply(s, p, h, st, o).requests, q, g) <==>
            Potential(s.requests, q, g) && !(q == p && g == h && st != ONLINE_CHUNK)
  {
    if h in s.requests && st != ONLINE_CHUNK {
      CheckRequestQuestions(Discount(SetStatus(s, p, h, st), p, h, Negative(p, h)), h, o, q, g);
    }
  }

  lemma ReplyQuestions(s: Share, p: PeerId, h: Hash, data: bytes, sha: bytes -> Hash, o: Order, q: PeerId, g: Hash)
    requires p in s.peers
    ensures Potential(ChunkReply(s, p, h, data, sha, o).requests, q, g) <==>
            Potential(s.requests, q, g) && !(g == h && (q == p || (data != [] && sha(data) == h)))
  {
    if h in s.requests {
      var s1 := Unwish(s, p, h);
      if data == [] || sha(data) != h {
        CheckRequestQuestions(Discount(SetStatus(s1, p, h, LOST_CHUNK), p, h, Failed(p, h)), h, o, q, g);
      } else {
        CloseQuestions(s1, h, Some(data), o, q, g);
      }
    }
  }

  /** After any event the open questions are these and no others. */
  lemma QuestionsAfter(s: Share, e: Event, sha: bytes -> Hash, q: PeerId, g: Hash)
    requires Inv(s, sha) && CanHappen(s, e)
    ensures AskedIn(Handle(s, e, sha).log, q, g) <==> OpenAfter(s, e, sha, q, g)
  {
    HandleInv(s, e, sha);
    var r := Handle(s, e, sha);
    assert Potential(s.requests, q, g) <==> AskedIn(s.log, q, g);
    assert Potential(r.requests, q, g) <==> AskedIn(r.log, q, g);
    match e
    case EvRequest(rd, h, o) =>
      assert Lists(o.peers(s.peers.Keys), s.peers.Keys);
      AskPeersQuestions(AddReader(s, rd, h), o.peers(s.peers.Keys), h, q, g);
    case EvStatusReply(p, h, st, o) =>
      StatusQuestions(s, p, h, st, o, q, g);
    case EvChunkReply(p, h, data, o) =>
      ReplyQuestions(s, p, h, data, sha, o, q, g);
    case EvConnected(p, o) =>
      var wishlist := if p in s.peers then s.peers[p].wishlist else {};
      AskForQuestions(s.(peers := s.peers[p := Peer(wishlist, NONE)]), p, OpenRequests(s, o), q, g);
    case EvDisconnected(p, o) =>
      if p in s.peers {
        RemoveQuestions(s, p, OpenRequests(s, o), o, q, g);
      }
    case EvInConnected(_) =>
    case EvLink(_) =>
  }

  // ----- wishes -----

  predicate Wishes(s: Share, q: PeerId, g: Hash) { q in s.peers && g in s.peers[q].wishlist }

  /** Who wishes for a chunk after an event, as long as it is requested. */
  predicate WishedAfter(s: Share, e: Event, q: PeerId, g: Hash) {
    match e
    case EvStatusReply(p, h, st, _) => Wishes(s, q, g) || (q == p && g == h && st == ONLINE_CHUNK)
    case EvChunkReply(p, h, _, _) => Wishes(s, q, g) && !(q == p && g == h)
    case _ => Wishes(s, q, g)
  }

  lemma WalkWishes(s: Share, o: Order, q: PeerId, g: Hash)
    requires g in s.requests
    ensures CheckPeers(s, o).requests == s.requests && (Wishes(CheckPeers(s, o), q, g) <==> Wishes(s, q, g))
  {
    var r := CheckPeers(s, o);
    assert r.peers.Keys == s.peers.Keys;
    if q in s.peers.Keys {
      CheckPeersWishes(s, q, o);
    }
  }

  /** A peer wishes for a requested chunk after an event exactly if it did before or has just reported
      it, unless it has just replied with it; and peers are known for good. */
  lemma WishesAfter(s: Share, e: Event, sha: bytes -> Hash, q: PeerId, g: Hash)
    requires CanHappen(s, e)
    ensures var r := Handle(s, e, sha);
            (g in r.requests ==> (Wishes(r, q, g) <==> WishedAfter(s, e, q, g))) &&
            (q in r.peers <==> q in s.peers || ((e.EvConnected? || e.EvInConnected?) && q == e.p))
  {
    var r := Handle(s, e, sha);
    match e
    case EvStatusReply(p, h, st, o) =>
      if h in s.requests && st == ONLINE_CHUNK {
        var s1 := Wish(SetStatus(s, p, h, st), p, h);
        assert q in r.peers.Keys <==> q in s1.peers.Keys;
        if g in s1.requests {
          WalkWishes(s1, o, q, g);
        }
      }
    case EvChunkReply(p, h, data, o) =>
      if h in s.requests && data != [] && sha(data) == h {
        var s1 := Close(Unwish(s, p, h), h, Some(data), o);
        assert q in r.peers.Keys <==> q in s1.peers.Keys;
        if g in s1.requests {
          WalkWishes(s1, o, q, g);
        }
      }
    case _ =>
  }

  // ----- downloads -----

  /** A walk starts downloads at connected peers only. */
  lemma {:induction false} WalkConnected(s: Share, ps: seq<PeerId>, q: PeerId, o: Order)
    requires q in s.peers && forall p :: p in ps ==> p in s.peers
    ensures var r := CheckEach(s, ps, o);
            q in r.peers && (r.peers[q].current == s.peers[q].current || (q in s.links && s.peers[q].current == NONE))
  {
    if ps != [] {
      var n := |ps| - 1;
      var m := CheckEach(s, ps[..n], o);
      WalkConnected(s, ps[..n], q, o);
      CheckEachSlot(s, ps[..n], q, o);
      CheckWorkOthers(m, ps[n], o);
      CheckWorkStarts(m, ps[n], o);
    }
  }

  lemma WalkStarts(s: Share, o: Order, q: PeerId)
    requires q in s.peers && CheckPeers(s, o).peers[q].current != s.peers[q].current
    ensures q in s.links && s.peers[q].current == NONE && CheckPeers(s, o).peers[q].current in s.requests
  {
    assert Lists(o.peers(s.peers.Keys), s.peers.Keys);
    WalkConnected(s, o.peers(s.peers.Keys), q, o);
    CheckPeersSlot(s, q, o);
  }

  /** A download starts only after an online report or a good chunk, at a connected peer that was not
      busy or has just been freed, and for a chunk that is requested and that the peer wishes for;
      nobody else is sending it. */
  lemma DownloadStarts(s: Share, e: Event, sha: bytes -> Hash, q: PeerId)
    requires Inv(s, sha) && CanHappen(s, e)
    requires q in s.peers && q in Handle(s, e, sha).peers
    requires Handle(s, e, sha).peers[q].current !in {NONE, s.peers[q].current}
    ensures var r, g := Handle(s, e, sha), Handle(s, e, sha).peers[q].current;
            g in r.requests && g in r.peers[q].wishlist && q in s.links &&
            (s.peers[q].current == NONE || (e.EvChunkReply? && q == e.p && s.peers[q].current == e.h)) &&
            ((e.EvStatusReply? && e.st == ONLINE_CHUNK) || (e.EvChunkReply? && e.data != [] && sha(e.data) == e.h)) &&
            forall p :: p in r.peers && p != q ==> r.peers[p].current != g
  {
    HandleInv(s, e, sha);
    match e
    case EvStatusReply(p, h, st, o) =>
      if h in s.requests && st == ONLINE_CHUNK {
        WalkStarts(Wish(SetStatus(s, p, h, st), p, h), o, q);
      }
    case EvChunkReply(p, h, data, o) =>
      if h in s.requests && data != [] && sha(data) == h {
        WalkStarts(Close(Unwish(s, p, h), h, Some(data), o), o, q);
      }
    case _ =>
  }

  /** After an online report or good data about a requested chunk no useful download is left
      unstarted. */
  lemma WorkAfter(s: Share, e: Event, sha: bytes -> Hash)
    requires Inv(s, sha) && CanHappen(s, e)
    requires (e.EvStatusReply? && e.h in s.requests && e.st == ONLINE_CHUNK) ||
             (e.EvChunkReply? && e.h in s.requests && e.data != [] && sha(e.data) == e.h)
    ensures WorkConserving(Handle(s, e, sha))
  {
    match e
    case EvStatusReply(p, h, st, o) =>
      WishInv(s, p, h, sha);
      CheckPeersConservesWork(Wish(SetStatus(s, p, h, st), p, h), o, sha);
    case EvChunkReply(p, h, data, o) =>
      UnwishInv(s, p, h, sha);
      CloseInv(Unwish(s, p, h), h, Some(data), o, sha);
      CheckPeersConservesWork(Close(Unwish(s, p, h), h, Some(data), o), o, sha);
  }

  // ----- requests -----

  /** Somebody else has an open question. */
  ghost predicate AskedElsewhere(log: seq<Entry>, p: PeerId, g: Hash) { exists q :: q != p && AskedIn(log, q, g) }

  lemma ElsewhereIff(s: Share, p: PeerId, g: Hash, sha: bytes -> Hash)
    requires Inv(s, sha) && g in s.requests
    ensures AskedElsewhere(s.log, p, g) <==> s.requests[g].potentials - {p} != {}
  {
    forall q ensures q in s.requests[g].potentials <==> AskedIn(s.log, q, g) {
      assert Potential(s.requests, q, g) <==> AskedIn(s.log, q, g);
    }
    if s.requests[g].potentials - {p} != {} {
      var q :| q in s.requests[g].potentials - {p};
      assert q != p && AskedIn(s.log, q, g);
    }
    if AskedElsewhere(s.log, p, g) {
      var q :| q != p && AskedIn(s.log, q, g);
      assert q in s.requests[g].potentials - {p};
    }
  }

  /** Which requests are open after an event: those opened, and of the old ones all but those whose chunk
      has come and those for which the event leaves no place to look. */
  ghost predicate RequestedAfter(s: Share, e: Event, sha: bytes -> Hash, g: Hash) {
    match e
    case EvRequest(_, h, _) => g in s.requests || g == h
    case EvStatusReply(p, h, st, _) =>
      g in s.requests && (g == h && st != ONLINE_CHUNK ==> AskedElsewhere(s.log, p, g))
    case EvChunkReply(p, h, data, _) =>
      g in s.requests && (g == h ==> (data == [] || sha(data) != h) && AskedElsewhere(s.log, p, g))
    case EvDisconnected(p, _) => g in s.requests && (p in s.peers ==> AskedElsewhere(s.log, p, g))
    case _ => g in s.requests
  }

  lemma RemoveRequest(s: Share, p: PeerId, h: Hash, o: Order, g: Hash)
    requires h in s.requests
    ensures var r := RemoveFrom(s, p, h, o);
            (g in r.requests <==> g in s.requests && (g == h ==> s.requests[g].potentials - {p} != {})) &&
            (g in r.requests && g != h ==> r.requests[g] == s.requests[g]) &&
            (g in r.requests ==> r.requests[g].readers == s.requests[g].readers)
  {
  }

  lemma {:induction false} RemoveRequests(s: Share, p: PeerId, hs: seq<Hash>, o: Order, g: Hash)
    requires Distinct(hs) && forall h :: h in hs ==> h in s.requests
    ensures var r := RemoveFromEach(s, p, hs, o);
            (g in r.requests <==> g in s.requests && (g in hs ==> s.requests[g].potentials - {p} != {})) &&
            (g in r.requests && g !in hs ==> r.requests[g] == s.requests[g]) &&
            (g in r.requests ==> r.requests[g].readers == s.requests[g].readers)
  {
    if hs != [] {
      var n := |hs| - 1;
      var h, rest := hs[n], hs[..n];
      assert forall i :: 0 <= i < n ==> hs[i] != h;
      assert g in hs <==> g in rest || g == h by {
        assert hs == rest + [h];
      }
      assert h !in rest;
      RemoveRequests(s, p, rest, o, g);
      RemoveRequest(RemoveFromEach(s, p, rest, o), p, h, o, g);
    }
  }

  /** After any event these requests are open and no others. */
  lemma RequestsAfter(s: Share, e: Event, sha: bytes -> Hash, g: Hash)
    requires Inv(s, sha) && CanHappen(s, e)
    ensures g in Handle(s, e, sha).requests <==> RequestedAfter(s, e, sha, g)
  {
    match e
    case EvStatusReply(p, h, st, o) =>
      if h in s.requests {
        ElsewhereIff(s, p, h, sha);
      }
    case EvChunkReply(p, h, data, o) =>
      if h in s.requests {
        ElsewhereIff(s, p, h, sha);
      }
    case EvDisconnected(p, o) =>
      if p in s.peers {
        RemoveRequests(s, p, OpenRequests(s, o), o, g);
        if g in s.requests {
          ElsewhereIff(s, p, g, sha);
        }
      }
    case EvRequest(rd, h, o) =>
      assert Handle(s, e, sha).requests.Keys == AddReader(s, rd, h).requests.Keys;
    case EvConnected(p, o) =>
      assert Handle(s, e, sha).requests.Keys == s.requests.Keys;
    case _ =>
  }

  // ----- readers -----

  lemma {:induction false} AskPeersReaders(s: Share, ps: seq<PeerId>, h: Hash, rd: ReaderId, g: Hash)
    requires h in s.requests
    ensures Waits(AskPeers(s, ps, h).requests, rd, g) <==> Waits(s.requests, rd, g)
  {
    if ps != [] {
      AskPeersReaders(s, ps[..|ps| - 1], h, rd, g);
    }
  }

  lemma {:induction false} AskForReaders(s: Share, p: PeerId, hs: seq<Hash>, rd: ReaderId, g: Hash)
    requires forall h :: h in hs ==> h in s.requests
    ensures Waits(AskFor(s, p, hs).requests, rd, g) <==> Waits(s.requests, rd, g)
  {
    if hs != [] {
      AskForReaders(s, p, hs[..|hs| - 1], rd, g);
    }
  }

  /** The readers of an open request are those it had, and the one that has just asked for it. */
  lemma ReadersAfter(s: Share, e: Event, sha: bytes -> Hash, rd: ReaderId, g: Hash)
    requires CanHappen(s, e) && g in Handle(s, e, sha).requests
    ensures Waits(Handle(s, e, sha).requests, rd, g) <==>
            Waits(s.requests, rd, g) || (e.EvRequest? && rd == e.r && g == e.h)
  {
    match e
    case EvRequest(rd', h, o) =>
      AskPeersReaders(AddReader(s, rd', h), o.peers(s.peers.Keys), h, rd, g);
    case EvConnected(p, o) =>
      var wishlist := if p in s.peers then s.peers[p].wishlist else {};
      AskForReaders(s.(peers := s.peers[p := Peer(wishlist, NONE)]), p, OpenRequests(s, o), rd, g);
    case EvDisconnected(p, o) =>
      if p in s.peers {
        RemoveRequests(s, p, OpenRequests(s, o), o, g);
      }
    case _ =>
  }

  lemma {:induction false} TellTells(log: seq<Entry>, rs: seq<ReaderId>, h: Hash, data: Option<bytes>, rd: ReaderId)
    requires rd in rs
    ensures Answered(rd, h, data) in TellAll(log, rs, h, data)
  {
    var n := |rs| - 1;
    if rd in rs[..n] {
      TellTells(log, rs[..n], h, data, rd);
    } else {
      assert rs == rs[..n] + [rs[n]];
    }
  }

  /** Data with the right hash goes to every reader that waits for it. */
  lemma GoodReplyDelivers(s: Share, p: PeerId, h: Hash, data: bytes, sha: bytes -> Hash, o: Order, rd: ReaderId)
    requires p in s.peers && Waits(s.requests, rd, h) && data != [] && sha(data) == h
    ensures Answered(rd, h, Some(data)) in ChunkReply(s, p, h, data, sha, o).log
  {
    var s1 := Unwish(s, p, h);
    var s2 := Close(s1, h, Some(data), o);
    var rs := o.readers(s.requests[h].readers);
    assert Lists(rs, s.requests[h].readers);
    TellTells(s.log, rs, h, Some(data), rd);
    CheckPeersGrew(s2, o);
    var i :| 0 <= i < |s2.log| && s2.log[i] == Answered(rd, h, Some(data));
    assert CheckPeers(s2, o).log[..|s2.log|][i] == s2.log[i];
  }
}
