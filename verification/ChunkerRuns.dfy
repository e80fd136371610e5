/** What holds over whole runs of the chunker: the chunks are a function of the bytes and of
    where the marks fall, they concatenate to the stream, and they respect the records. */
module ChunkerRuns {
  import opened Bytes
  import opened KeyTree
  import opened Chunker

  // ----- only bytes and marks matter -----

  datatype Op = Write(data: bytes) | MarkRecord

  /** What one step of the stream is, whatever the size of the writes. */
  datatype Token = Byte(b: byte) | Boundary

  function Tokens(ops: seq<Op>): seq<Token> {
    if ops == [] then [] else
      (if ops[0].MarkRecord? then [Boundary] else ByteTokens(ops[0].data)) + Tokens(ops[1..])
  }

  function ByteTokens(d: bytes): seq<Token> {
    if d == [] then [] else ByteTokens(d[..|d| - 1]) + [Byte(d[|d| - 1])]
  }

  ghost predicate Ready(s: State) { Shape(s, MAX_CHUNK - 1) }

  /** One byte or one mark; a mark that would close an empty record is not allowed. */
  ghost function EatOne(r: Option<State>, t: Token): (r': Option<State>)
    requires r.Some? ==> Ready(r.value)
    ensures r'.Some? ==> Ready(r'.value)
  {
    if r.None? then None else
      match t
      case Byte(b) => Some(Feed1(r.value, b))
      case Boundary => if CanMark(r.value) then Some(Mark(r.value)) else None
  }

  /** The reference: one byte or one mark at a time. */
  ghost function Eat(s: State, ts: seq<Token>): (r: Option<State>)
    requires Ready(s)
    ensures r.Some? ==> Ready(r.value)
  {
    if ts == [] then Some(s) else EatOne(Eat(s, ts[..|ts| - 1]), ts[|ts| - 1])
  }

  /** A run of the coder's operations. */
  ghost function Run(s: State, ops: seq<Op>): (r: Option<State>)
    requires Ready(s)
    ensures r.Some? ==> Ready(r.value)
    decreases |ops|
  {
    if ops == [] then Some(s) else
      match ops[0]
      case Write(d) => Run(Feed(s, d), ops[1..])
      case MarkRecord => if CanMark(s) then Run(Mark(s), ops[1..]) else None
  }

  ghost function EatMore(r: Option<State>, ts: seq<Token>): (r': Option<State>)
    requires r.Some? ==> Ready(r.value)
    ensures r'.Some? ==> Ready(r'.value)
  {
    if r.None? then None else Eat(r.value, ts)
  }

  lemma EatMoreSnoc(r: Option<State>, ts: seq<Token>, t: Token)
    requires r.Some? ==> Ready(r.value)
    ensures EatMore(r, ts + [t]) == EatOne(EatMore(r, ts), t)
  {
    assert (ts + [t])[..|ts|] == ts;
  }

  lemma {:induction false} EatConcat(s: State, ts: seq<Token>, us: seq<Token>)
    requires Ready(s)
    ensures Eat(s, ts + us) == EatMore(Eat(s, ts), us)
  {
    if us == [] {
      assert ts + us == ts;
    } else {
      var n := |us| - 1;
      EatConcat(s, ts, us[..n]);
      EatMoreSnoc(Eat(s, ts), us[..n], us[n]);
      assert us == us[..n] + [us[n]];
      assert ts + us == (ts + us[..n]) + [us[n]];
      EatMoreSnoc(Some(s), ts + us[..n], us[n]);
    }
  }

  lemma {:induction false} FeedIsEat(s: State, d: bytes)
    requires Ready(s)
    ensures Eat(s, ByteTokens(d)) == Some(Feed(s, d))
  {
    if d != [] {
      var n := |d| - 1;
      FeedIsEat(s, d[..n]);
      EatMoreSnoc(Some(s), ByteTokens(d[..n]), Byte(d[n]));
    }
  }

  lemma MarkIsEat(s: State)
    requires Ready(s)
    ensures Eat(s, [Boundary]) == if CanMark(s) then Some(Mark(s)) else None
  {
    EatMoreSnoc(Some(s), [], Boundary);
    assert [] + [Boundary] == [Boundary];
  }

  /** Any sequence of writes and marks does what its bytes and marks do one at a time. */
  lemma {:induction false} RunIsEat(s: State, ops: seq<Op>)
    requires Ready(s)
    ensures Run(s, ops) == Eat(s, Tokens(ops))
    decreases |ops|
  {
    if ops != [] {
      match ops[0] {
        case Write(d) =>
          FeedIsEat(s, d);
          EatConcat(s, ByteTokens(d), Tokens(ops[1..]));
          RunIsEat(Feed(s, d), ops[1..]);
        case MarkRecord =>
          MarkIsEat(s);
          EatConcat(s, [Boundary], Tokens(ops[1..]));
          if CanMark(s) {
            RunIsEat(Mark(s), ops[1..]);
          }
      }
    }
  }

  /** The chunks depend on the bytes and the mark positions alone, not on how the stream was
      split into writes. */
  lemma SameTokensSameChunks(ops1: seq<Op>, ops2: seq<Op>)
    requires Tokens(ops1) == Tokens(ops2)
    ensures Ready(START) && Run(START, ops1) == Run(START, ops2)
  {
    assert Ready(START);
    RunIsEat(START, ops1);
    RunIsEat(START, ops2);
  }

  lemma {:induction false} FeedConcat(s: State, x: bytes, y: bytes)
    requires Ready(s)
    ensures Feed(s, x + y) == Feed(Feed(s, x), y)
  {
    if y == [] {
      assert x + y == x;
    } else {
      var n := |y| - 1;
      assert (x + y)[..|x + y| - 1] == x + y[..n];
      FeedConcat(s, x, y[..n]);
    }
  }

  /** Bytes that do not fill the buffer are only kept. */
  lemma {:induction false} FeedKeeps(s: State, d: bytes)
    requires Ready(s) && |s.pending| + |d| < MAX_CHUNK
    ensures Feed(s, d) == s.(pending := s.pending + d)
  {
    if d == [] {
      assert s.pending + d == s.pending;
    } else {
      var n := |d| - 1;
      FeedKeeps(s, d[..n]);
      assert (s.pending + d[..n]) + [d[n]] == s.pending + d;
    }
  }

  /** Bytes that just fill it make one cut. */
  lemma FeedFills(s: State, d: bytes, full: State)
    requires Ready(s) && d != [] && |s.pending| + |d| == MAX_CHUNK && full == s.(pending := s.pending + d)
    ensures Shape(full, MAX_CHUNK) && Feed(s, d) == Emit(full)
  {
    var s' := AllButLast(s, d, full);
    FeedLast(s, d);
    Feed1Fills(s', d[|d| - 1], full);
  }

  lemma AllButLast(s: State, d: bytes, full: State) returns (s': State)
    requires Ready(s) && d != [] && |s.pending| + |d| == MAX_CHUNK && full == s.(pending := s.pending + d)
    ensures s' == Feed(s, d[..|d| - 1]) && Ready(s') && |s'.pending| + 1 == MAX_CHUNK
    ensures full == s'.(pending := s'.pending + [d[|d| - 1]])
  {
    s' := Feed(s, d[..|d| - 1]);
    FeedKeeps(s, d[..|d| - 1]);
    SnocAssoc(s.pending, d);
  }

  lemma FeedLast(s: State, d: bytes)
    requires Ready(s) && d != []
    ensures Feed(s, d) == Feed1(Feed(s, d[..|d| - 1]), d[|d| - 1])
  {
  }

  lemma SnocAssoc(p: bytes, d: bytes)
    requires d != []
    ensures (p + d[..|d| - 1]) + [d[|d| - 1]] == p + d
  {
  }

  lemma Feed1Fills(s: State, b: byte, full: State)
    requires Ready(s) && |s.pending| + 1 == MAX_CHUNK && full == s.(pending := s.pending + [b])
    ensures Shape(full, MAX_CHUNK) && Feed1(s, b) == Emit(full)
  {
  }

  /** One piece of a longer write. */
  lemma FeedPrefix(s: State, d: bytes, m: nat, n: nat)
    requires Ready(s) && m <= n <= |d|
    ensures Feed(s, d[..n]) == Feed(Feed(s, d[..m]), d[m..n])
  {
    assert d[..n] == d[..m] + d[m..n];
    FeedConcat(s, d[..m], d[m..n]);
  }
}
