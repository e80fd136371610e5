/** Chunk sharing between peers as a transition system: open requests, what every peer is known to
    have, and the one chunk every peer may be sending.

    `links`, the set of peers with a live stream, belongs to the transport. `log` records what an
    observer sees: status requests sent, negative outcomes, requests opened, answers given to
    readers, and downloads started. */
module ChunkShare {
  import opened Bytes
  import opened Listing

  type PeerId = bytes
  type ReaderId = int
  type Hash = bytes

  const NONE: Hash := []

  // Status codes a peer can report
  const INVALID_STATUS := 0
  const ONLINE_CHUNK := 1
  const UNKNOWN_CHUNK := 3
  const LOST_CHUNK := 4

  datatype Request = Request(readers: set<ReaderId>, potentials: set<PeerId>, status: map<PeerId, int>)

  /** `current` is the chunk being downloaded from the peer, or empty. */
  datatype Peer = Peer(wishlist: set<Hash>, current: Hash)

  datatype Entry =
    | Asked(p: PeerId, h: Hash)
    | Negative(p: PeerId, h: Hash)
    | Failed(p: PeerId, h: Hash)
    | Gone(p: PeerId, h: Hash)
    | Opened(r: ReaderId, h: Hash)
    | Answered(r: ReaderId, h: Hash, data: Option<bytes>)
    | Fetch(p: PeerId, h: Hash)

  datatype Share = Share(
    peers: map<PeerId, Peer>,
    requests: map<Hash, Request>,
    links: set<PeerId>,
    log: seq<Entry>)

  const EMPTY := Share(map[], map[], {}, [])

  // ----- iteration order -----

  /** The order in which the unordered containers are walked during one event: any order. */
  datatype AnyOrder = AnyOrder(
    peers: set<PeerId> -> seq<PeerId>,
    hashes: set<Hash> -> seq<Hash>,
    readers: set<ReaderId> -> seq<ReaderId>)

  ghost predicate Complete(o: AnyOrder) {
    (forall s :: Lists(o.peers(s), s)) && (forall s :: Lists(o.hashes(s), s)) &&
    (forall s :: Lists(o.readers(s), s))
  }

  type Order = o: AnyOrder | Complete(o)
    ghost witness AnyOrder(s => SomeList(s), s => SomeList(s), s => SomeList(s))

  // ----- asking -----

  /** `send_status_request`: an unreachable peer is not asked. */
  function SendStatus(s: Share, p: PeerId, h: Hash): (r: Share)
    requires h in s.requests
    ensures r.requests.Keys == s.requests.Keys && r.peers == s.peers
  {
    if p !in s.links then s else
      var req := s.requests[h];
      s.(requests := s.requests[h := req.(potentials := req.potentials + {p},
                                          status := req.status[p := INVALID_STATUS])],
         log := s.log + [Asked(p, h)])
  }

  function AskPeers(s: Share, ps: seq<PeerId>, h: Hash): (r: Share)
    requires h in s.requests
    ensures r.requests.Keys == s.requests.Keys && r.peers == s.peers
  {
    if ps == [] then s else SendStatus(AskPeers(s, ps[..|ps| - 1], h), ps[|ps| - 1], h)
  }

  function AskFor(s: Share, p: PeerId, hs: seq<Hash>): (r: Share)
    requires forall h :: h in hs ==> h in s.requests
    ensures r.requests.Keys == s.requests.Keys && r.peers == s.peers
  {
    if hs == [] then s else SendStatus(AskFor(s, p, hs[..|hs| - 1]), p, hs[|hs| - 1])
  }

  function AddReader(s: Share, r: ReaderId, h: Hash): Share {
    var req := if h in s.requests then s.requests[h] else Request({}, {}, map[]);
    s.(requests := s.requests[h := req.(readers := req.readers + {r})],
       log := s.log + if r in req.readers then [] else [Opened(r, h)])
  }

  /** `request_chunk`. */
  function RequestChunk(s: Share, r: ReaderId, h: Hash, o: Order): Share {
    AskPeers(AddReader(s, r, h), o.peers(s.peers.Keys), h)
  }

  // ----- answering -----

  function TellAll(log: seq<Entry>, rs: seq<ReaderId>, h: Hash, data: Option<bytes>): seq<Entry> {
    if rs == [] then log else
      TellAll(log, rs[..|rs| - 1], h, data) + [Answered(rs[|rs| - 1], h, data)]
  }

  /** A request ends: all its readers get the same answer. */
  function Close(s: Share, h: Hash, data: Option<bytes>, o: Order): Share
    requires h in s.requests
  {
    s.(requests := s.requests - {h}, log := TellAll(s.log, o.readers(s.requests[h].readers), h, data))
  }

  /** `check_request`: gives up when no place is left to look. */
  function CheckRequest(s: Share, h: Hash, o: Order): Share
    requires h in s.requests
  {
    if s.requests[h].potentials != {} then s else Close(s, h, None, o)
  }

  // ----- scheduling -----

  ghost predicate Taken(s: Share, h: Hash) { exists p :: p in s.peers && s.peers[p].current == h }

  /** The search of `check_work` through a wishlist: drops what is no longer needed, passes over
      what is being downloaded, and starts the first other chunk. */
  ghost function Search(s: Share, p: PeerId, wishes: seq<Hash>): Share
    requires p in s.peers
    decreases |wishes|
  {
    if wishes == [] then s else
      var h, peer := wishes[0], s.peers[p];
      if h !in s.requests then
        Search(s.(peers := s.peers[p := peer.(wishlist := peer.wishlist - {h})]), p, wishes[1..])
      else if Taken(s, h) then Search(s, p, wishes[1..])
      else s.(peers := s.peers[p := peer.(current := h)], log := s.log + [Fetch(p, h)])
  }

  /** `check_work`. */
  ghost function CheckWork(s: Share, p: PeerId, o: Order): Share
    requires p in s.peers
  {
    var peer := s.peers[p];
    if p !in s.links || peer.current != NONE || peer.wishlist == {} then s
    else Search(s, p, o.hashes(peer.wishlist))
  }

  lemma {:induction false} SearchFrame(s: Share, p: PeerId, wishes: seq<Hash>)
    requires p in s.peers
    ensures var r := Search(s, p, wishes);
            r.requests == s.requests && r.links == s.links && r.peers.Keys == s.peers.Keys
    decreases |wishes|
  {
    if wishes != [] && wishes[0] !in s.requests {
      var peer := s.peers[p];
      var s' := s.(peers := s.peers[p := peer.(wishlist := peer.wishlist - {wishes[0]})]);
      assert s'.peers.Keys == s.peers.Keys;
      SearchFrame(s', p, wishes[1..]);
    } else if wishes != [] && Taken(s, wishes[0]) {
      SearchFrame(s, p, wishes[1..]);
    } else if wishes != [] {
      assert s.peers[p := s.peers[p].(current := wishes[0])].Keys == s.peers.Keys;
    }
  }

  /** `check_peers`, up to some point of the walk. */
  ghost function CheckEach(s: Share, ps: seq<PeerId>, o: Order): (r: Share)
    requires forall p :: p in ps ==> p in s.peers
    ensures r.requests == s.requests && r.links == s.links && r.peers.Keys == s.peers.Keys
  {
    if ps == [] then s else
      var n := |ps| - 1;
      var s' := CheckEach(s, ps[..n], o);
      assert ps[n] in s'.peers.Keys;
      SearchFrame(s', ps[n], o.hashes(s'.peers[ps[n]].wishlist));
      CheckWork(s', ps[n], o)
  }

  ghost function CheckPeers(s: Share, o: Order): (r: Share)
    ensures r.requests == s.requests && r.links == s.links && r.peers.Keys == s.peers.Keys
  {
    assert Lists(o.peers(s.peers.Keys), s.peers.Keys);
    CheckEach(s, o.peers(s.peers.Keys), o)
  }

  // ----- events -----

  /** The stored status of a peer, and whether it is still worth waiting for. */
  function SetStatus(s: Share, p: PeerId, h: Hash, st: int): Share
    requires h in s.requests
  {
    s.(requests := s.requests[h := s.requests[h].(status := s.requests[h].status[p := st])])
  }

  /** A peer is out for this chunk, for the reason given by the log entry. */
  function Discount(s: Share, p: PeerId, h: Hash, e: Entry): Share
    requires h in s.requests
  {
    s.(requests := s.requests[h := s.requests[h].(potentials := s.requests[h].potentials - {p})],
       log := s.log + [e])
  }

  function Wish(s: Share, p: PeerId, h: Hash): Share
    requires p in s.peers
  {
    s.(peers := s.peers[p := s.peers[p].(wishlist := s.peers[p].wishlist + {h})])
  }

  /** `got_status_reply`. */
  ghost function StatusReply(s: Share, p: PeerId, h: Hash, st: int, o: Order): Share
    requires p in s.peers
  {
    if h !in s.requests then s
    else if st == ONLINE_CHUNK then CheckPeers(Wish(SetStatus(s, p, h, st), p, h), o)
    else CheckRequest(Discount(SetStatus(s, p, h, st), p, h, Negative(p, h)), h, o)
  }

  /** The peer is done with the chunk, one way or another. */
  function Unwish(s: Share, p: PeerId, h: Hash): Share
    requires p in s.peers
  {
    var peer := s.peers[p];
    s.(peers := s.peers[p := Peer(peer.wishlist - {h}, if peer.current == h then NONE else peer.current)])
  }

  /** `got_chunk_reply`. */
  ghost function ChunkReply(s: Share, p: PeerId, h: Hash, data: bytes, sha: bytes -> Hash, o: Order): Share
    requires p in s.peers
  {
    if h !in s.requests then s
    else
      var s' := Unwish(s, p, h);
      if data == [] || sha(data) != h then
        CheckRequest(Discount(SetStatus(s', p, h, LOST_CHUNK), p, h, Failed(p, h)), h, o)
      else CheckPeers(Close(s', h, Some(data), o), o)
  }

  function ForgetStatus(s: Share, p: PeerId, h: Hash): Share
    requires h in s.requests
  {
    s.(requests := s.requests[h := s.requests[h].(status := s.requests[h].status - {p})])
  }

  /** One round of `remove_from_requests`. */
  function RemoveFrom(s: Share, p: PeerId, h: Hash, o: Order): Share
    requires h in s.requests
  {
    CheckRequest(Discount(ForgetStatus(s, p, h), p, h, Gone(p, h)), h, o)
  }

  function RemoveFromEach(s: Share, p: PeerId, hs: seq<Hash>, o: Order): (r: Share)
    requires Distinct(hs) && forall h :: h in hs ==> h in s.requests
    ensures r.peers == s.peers
    ensures forall h :: h in s.requests && h !in hs ==> h in r.requests
  {
    if hs == [] then s else
      var n := |hs| - 1;
      assert forall i :: 0 <= i < n ==> hs[i] != hs[n];
      RemoveFrom(RemoveFromEach(s, p, hs[..n], o), p, hs[n], o)
  }

  function OpenRequests(s: Share, o: Order): (hs: seq<Hash>)
    ensures Distinct(hs) && forall h :: h in hs <==> h in s.requests
  {
    var hs := o.hashes(s.requests.Keys);
    assert Lists(hs, s.requests.Keys);
    hs
  }

  /** `got_out_stream_connected`: the peer starts over, and is asked for everything again. */
  function Connected(s: Share, p: PeerId, o: Order): Share {
    var wishlist := if p in s.peers then s.peers[p].wishlist else {};
    AskFor(s.(peers := s.peers[p := Peer(wishlist, NONE)]), p, OpenRequests(s, o))
  }

  /** `got_out_stream_disconnected`. */
  function Disconnected(s: Share, p: PeerId, o: Order): Share {
    if p !in s.peers then s else RemoveFromEach(s, p, OpenRequests(s, o), o)
  }

  /** `got_in_stream_connected`. */
  function InConnected(s: Share, p: PeerId): Share {
    if p in s.peers then s else s.(peers := s.peers[p := Peer({}, NONE)])
  }

  datatype Event =
    | EvRequest(r: ReaderId, h: Hash, o: Order)
    | EvStatusReply(p: PeerId, h: Hash, st: int, o: Order)
    | EvChunkReply(p: PeerId, h: Hash, data: bytes, o: Order)
    | EvConnected(p: PeerId, o: Order)
    | EvDisconnected(p: PeerId, o: Order)
    | EvInConnected(p: PeerId)
    | EvLink(links: set<PeerId>)

  /** Messages come from known peers; a hash is never empty. */
  predicate CanHappen(s: Share, e: Event) {
    match e
    case EvRequest(_, h, _) => h != NONE
    case EvStatusReply(p, h, _, _) => p in s.peers && h != NONE
    case EvChunkReply(p, h, _, _) => p in s.peers && h != NONE
    case _ => true
  }

  ghost function Handle(s: Share, e: Event, sha: bytes -> Hash): Share
    requires CanHappen(s, e)
  {
    match e
    case EvRequest(r, h, o) => RequestChunk(s, r, h, o)
    case EvStatusReply(p, h, st, o) => StatusReply(s, p, h, st, o)
    case EvChunkReply(p, h, data, o) => ChunkReply(s, p, h, data, sha, o)
    case EvConnected(p, o) => Connected(s, p, o)
    case EvDisconnected(p, o) => Disconnected(s, p, o)
    case EvInConnected(p) => InConnected(s, p)
    case EvLink(links) => s.(links := links)
  }

  /** The state after a run, if every event of it can happen. */
  ghost function Run(s: Share, es: seq<Event>, sha: bytes -> Hash): Option<Share> {
    if es == [] then Some(s) else
      match Run(s, es[..|es| - 1], sha)
      case None => None
      case Some(s') => if CanHappen(s', es[|es| - 1]) then Some(Handle(s', es[|es| - 1], sha)) else None
  }
}
