/** The lists of still-unmerged keys, one per level, and what adding a key does to them. */
module Levels {
  import opened Bytes
  import opened Selection
  import opened OpaqueMeta
  import opened KeyTree

  /** Number of keys, from 4 to 8, that go into the next key chunk. */
  function SplitPoint(c: Crypto, ks: seq<OpaqueKey>): (n: nat)
    requires |ks| > MAXKEYS
    ensures MINKEYS <= n <= MAXKEYS
  {
    MINKEYS + LastMin(Checks(c, ks[MINKEYS - 1..MAXKEYS]), MAXKEYS - MINKEYS + 1)
  }

  function Checks(c: Crypto, ks: seq<OpaqueKey>): (vals: seq<int>)
    ensures |vals| == |ks|
    ensures forall i :: 0 <= i < |ks| ==> vals[i] == c.check(ks[i].ohash)
  {
    if ks == [] then [] else [c.check(ks[0].ohash)] + Checks(c, ks[1..])
  }

  /** The key chunk ends at the key with the lowest check among the 4th to the 8th, the last
      one if several are lowest. */
  lemma SplitPointIsLastLowest(c: Crypto, ks: seq<OpaqueKey>, i: nat)
    requires |ks| > MAXKEYS && MINKEYS - 1 <= i < MAXKEYS
    ensures var n := SplitPoint(c, ks);
            c.check(ks[n - 1].ohash) <= c.check(ks[i].ohash) &&
            (n - 1 < i ==> c.check(ks[n - 1].ohash) < c.check(ks[i].ohash))
  {
    var vals := Checks(c, ks[MINKEYS - 1..MAXKEYS]);
    LastMinIsLastMinimum(vals, |vals|);
    assert vals[i - (MINKEYS - 1)] == c.check(ks[i].ohash);
  }

  // ----- forests -----

  /** For each level, the trees not yet merged, oldest first. */
  type Forest = seq<seq<Tree>>

  ghost predicate LevelOk(f: Forest, i: nat)
    requires i < |f|
  {
    0 < |f[i]| <= MAXKEYS && TreesOk(f[i], i)
  }

  ghost predicate ForestOk(f: Forest, from: nat) {
    forall i :: from <= i < |f| ==> LevelOk(f, i)
  }

  /** The data chunks under the levels from `from` up: highest level first, left to right. */
  function LeavesFrom(f: Forest, from: nat): seq<Piece>
    decreases |f| - from
  {
    if from >= |f| then [] else LeavesFrom(f, from + 1) + AllLeaves(f[from])
  }

  function KeysFrom(f: Forest, from: nat): nat
    decreases |f| - from
  {
    if from >= |f| then 0 else KeysFrom(f, from + 1) + |f[from]|
  }

  function Append(f: Forest, t: Tree): (r: Forest)
    requires Level(t) <= |f|
    ensures |r| == if Level(t) == |f| then |f| + 1 else |f|
    ensures forall i :: 0 <= i < |f| && i != Level(t) ==> r[i] == f[i]
    ensures r[Level(t)] == (if Level(t) == |f| then [] else f[Level(t)]) + [t]
  {
    if Level(t) == |f| then f + [[t]] else f[Level(t) := f[Level(t)] + [t]]
  }

  lemma AppendOk(f: Forest, t: Tree)
    requires TreeOk(t) && Level(t) <= |f| && ForestOk(f, Level(t))
    ensures var f1, lev := Append(f, t), Level(t);
            ForestOk(f1, lev + 1) && 0 < |f1[lev]| <= MAXKEYS + 1 && TreesOk(f1[lev], lev)
  {
    var f1, lev := Append(f, t), Level(t);
    assert lev < |f| ==> LevelOk(f, lev);
    forall i | lev < i < |f1| ensures LevelOk(f1, i) {
      assert LevelOk(f, i);
    }
  }

  lemma AppendFits(f: Forest, lev: nat)
    requires lev < |f| && ForestOk(f, lev + 1) && 0 < |f[lev]| <= MAXKEYS && TreesOk(f[lev], lev)
    ensures ForestOk(f, lev)
  {
    forall i | lev <= i < |f| ensures LevelOk(f, i) {
      assert i > lev ==> LevelOk(f, i);
    }
  }

  lemma NodeOk(ts: seq<Tree>, level: nat)
    requires 0 < |ts| <= MAXKEYS && TreesOk(ts, level)
    ensures TreeOk(Node(ts)) && Level(Node(ts)) == level + 1
  {
    assert TreeOk(ts[0]) && Level(ts[0]) == level;
  }

  function SetLevel(f: Forest, lev: nat, ts: seq<Tree>): (g: Forest)
    requires lev < |f|
    ensures |g| == |f| && g[lev] == ts && forall i :: 0 <= i < |f| && i != lev ==> g[i] == f[i]
  {
    f[lev := ts]
  }

  lemma SetLevelOk(f: Forest, lev: nat, ts: seq<Tree>)
    requires lev < |f| && ForestOk(f, lev + 1) && 0 < |ts| <= MAXKEYS && TreesOk(ts, lev)
    ensures ForestOk(SetLevel(f, lev, ts), lev)
  {
    var g := SetLevel(f, lev, ts);
    forall i | lev + 1 <= i < |g| ensures LevelOk(g, i) {
      assert LevelOk(f, i);
    }
    AppendFits(g, lev);
  }

  /** The key chunk made from the front of an overfull level. */
  function PushUp(c: Crypto, ts: seq<Tree>, level: nat): (nk: Tree)
    requires |ts| == MAXKEYS + 1 && TreesOk(ts, level)
    ensures nk.Node? && TreeOk(nk) && Level(nk) == level + 1
    ensures MINKEYS <= |nk.kids| <= MAXKEYS && nk.kids == ts[..|nk.kids|]
  {
    var lo := ts[..SplitPoint(c, KeysOf(c, ts))];
    NodeOk(lo, level);
    Node(lo)
  }

  /** `addKey` on trees: append at the tree's level, and when that makes more than 8, push the
      first 4 to 8 of them up as one key chunk. */
  function AddTree(c: Crypto, f: Forest, t: Tree): (r: Forest)
    requires TreeOk(t) && Level(t) <= |f| && ForestOk(f, Level(t))
    ensures |f| <= |r| && Level(t) < |r|
    ensures ForestOk(r, Level(t))
    ensures forall i :: 0 <= i < Level(t) ==> r[i] == f[i]
    decreases |f| - Level(t)
  {
    var lev := Level(t);
    var f1 := Append(f, t);
    AppendOk(f, t);
    if |f1[lev]| <= MAXKEYS then
      AppendFits(f1, lev);
      f1
    else
      var nk := PushUp(c, f1[lev], lev);
      var f2 := AddTree(c, f1, nk);
      var hi := f1[lev][|nk.kids|..];
      SetLevelOk(f2, lev, hi);
      SetLevel(f2, lev, hi)
  }

  // ----- order of the content -----

  lemma {:induction false} LeavesFromFrame(f: Forest, g: Forest, from: nat)
    requires |f| == |g| && forall i :: from <= i < |f| ==> f[i] == g[i]
    ensures LeavesFrom(f, from) == LeavesFrom(g, from) && KeysFrom(f, from) == KeysFrom(g, from)
    decreases |f| - from
  {
    if from < |f| {
      assert f[from] == g[from];
      LeavesFromFrame(f, g, from + 1);
    }
  }

  lemma SetLevelLeaves(f: Forest, lev: nat, ts: seq<Tree>)
    requires lev < |f|
    ensures LeavesFrom(SetLevel(f, lev, ts), lev) == LeavesFrom(f, lev + 1) + AllLeaves(ts)
    ensures KeysFrom(SetLevel(f, lev, ts), lev) == KeysFrom(f, lev + 1) + |ts|
  {
    LeavesFromFrame(f, SetLevel(f, lev, ts), lev + 1);
  }

  lemma AppendLeaves(f: Forest, t: Tree, f1: Forest, lev: nat)
    requires Level(t) == lev <= |f| && f1 == Append(f, t)
    ensures LeavesFrom(f1, lev) == LeavesFrom(f, lev) + Leaves(t)
    ensures KeysFrom(f1, lev) == KeysFrom(f, lev) + 1
    ensures LeavesFrom(f1, lev + 1) == LeavesFrom(f, lev + 1)
    ensures KeysFrom(f1, lev + 1) == KeysFrom(f, lev + 1)
  {
    OneTree(t);
    if lev == |f| {
      assert f1[lev] == [t];
    } else {
      LeavesFromFrame(f, f1, lev + 1);
      AllLeavesConcat(f[lev], [t]);
      Assoc(LeavesFrom(f, lev + 1), AllLeaves(f[lev]), Leaves(t));
    }
  }

  lemma OneTree(t: Tree)
    ensures AllLeaves([t]) == Leaves(t)
  {
    assert AllLeaves([t]) == Leaves(t) + AllLeaves([]);
  }

  /** The two halves of an overflowing level: the key chunk pushed up and what stays. */
  lemma Overflow(c: Crypto, f: Forest, t: Tree) returns (nk: Tree, hi: seq<Tree>)
    requires TreeOk(t) && Level(t) <= |f| && ForestOk(f, Level(t))
    requires |Append(f, t)[Level(t)]| > MAXKEYS
    ensures Level(t) < |f| == |Append(f, t)| && ForestOk(Append(f, t), Level(t) + 1)
    ensures nk.Node? && TreeOk(nk) && Level(nk) == Level(t) + 1 && |nk.kids| >= MINKEYS
    ensures Append(f, t)[Level(t)] == nk.kids + hi
    ensures AddTree(c, f, t) == SetLevel(AddTree(c, Append(f, t), nk), Level(t), hi)
  {
    var lev := Level(t);
    var f1 := Append(f, t);
    AppendOk(f, t);
    nk := PushUp(c, f1[lev], lev);
    hi := f1[lev][|nk.kids|..];
  }

  /** Adding a tree appends its data chunks after everything at its level and above. */
  lemma {:induction false} AddTreeOrder(c: Crypto, f: Forest, t: Tree, lev: nat)
    requires TreeOk(t) && Level(t) == lev <= |f| && ForestOk(f, lev)
    ensures LeavesFrom(AddTree(c, f, t), lev) == LeavesFrom(f, lev) + Leaves(t)
    decreases |f| - lev
  {
    var f1 := Append(f, t);
    AppendLeaves(f, t, f1, lev);
    if |f1[lev]| > MAXKEYS {
      var nk, hi := Overflow(c, f, t);
      AddTreeOrder(c, f1, nk, lev + 1);
      OrderOverflow(f1, lev, AddTree(c, f1, nk), nk, hi);
    } else {
      NoOverflow(c, f, t);
    }
  }

  lemma OrderOverflow(f1: Forest, lev: nat, g: Forest, nk: Tree, hi: seq<Tree>)
    requires lev < |f1| && lev < |g| && nk.Node? && f1[lev] == nk.kids + hi
    requires LeavesFrom(g, lev + 1) == LeavesFrom(f1, lev + 1) + Leaves(nk)
    ensures LeavesFrom(SetLevel(g, lev, hi), lev) == LeavesFrom(f1, lev)
  {
    SetLevelLeaves(g, lev, hi);
    AllLeavesConcat(nk.kids, hi);
    Assoc(LeavesFrom(f1, lev + 1), AllLeaves(nk.kids), AllLeaves(hi));
  }

  lemma NoOverflow(c: Crypto, f: Forest, t: Tree)
    requires TreeOk(t) && Level(t) <= |f| && ForestOk(f, Level(t)) && |Append(f, t)[Level(t)]| <= MAXKEYS
    ensures AddTree(c, f, t) == Append(f, t)
  {
  }

  /** Adding a tree never costs more than one key, and a new level is paid for by the keys
      that moved into it. */
  lemma {:induction false} AddTreeCount(c: Crypto, f: Forest, t: Tree, lev: nat)
    requires TreeOk(t) && Level(t) == lev <= |f| && ForestOk(f, lev)
    ensures KeysFrom(AddTree(c, f, t), lev) <= KeysFrom(f, lev) + 1
    ensures |AddTree(c, f, t)| + KeysFrom(AddTree(c, f, t), lev) <=
            |f| + KeysFrom(f, lev) + if lev == |f| then 2 else 1
    decreases |f| - lev
  {
    var f1 := Append(f, t);
    AppendLeaves(f, t, f1, lev);
    if |f1[lev]| > MAXKEYS {
      var nk, hi := Overflow(c, f, t);
      AddTreeCount(c, f1, nk, lev + 1);
      CountOverflow(f1, lev, AddTree(c, f1, nk), |nk.kids|, hi);
    } else {
      NoOverflow(c, f, t);
    }
  }

  lemma CountOverflow(f1: Forest, lev: nat, g: Forest, n: nat, hi: seq<Tree>)
    requires lev < |f1| && lev < |g| && MINKEYS <= n && |f1[lev]| == n + |hi|
    requires KeysFrom(g, lev + 1) <= KeysFrom(f1, lev + 1) + 1
    requires |g| + KeysFrom(g, lev + 1) <= |f1| + KeysFrom(f1, lev + 1) + 2
    ensures KeysFrom(SetLevel(g, lev, hi), lev) <= KeysFrom(f1, lev)
    ensures |SetLevel(g, lev, hi)| + KeysFrom(SetLevel(g, lev, hi), lev) <= |f1| + KeysFrom(f1, lev)
  {
    SetLevelLeaves(g, lev, hi);
  }

  // ----- merging upwards -----

  /** One round of `finish`: all keys of a level become one key chunk at the next. */
  function MergeLevel(c: Crypto, f: Forest, lev: nat): (r: Forest)
    requires lev < |f| && ForestOk(f, lev)
    ensures |f| <= |r| && lev + 1 < |r| && ForestOk(r, lev + 1)
    ensures r[lev] == [] && forall i :: 0 <= i < lev ==> r[i] == f[i]
  {
    assert LevelOk(f, lev);
    NodeOk(f[lev], lev);
    var r := AddTree(c, f, Node(f[lev]));
    var r' := SetLevel(r, lev, []);
    assert ForestOk(r', lev + 1) by {
      forall i | lev < i < |r'| ensures LevelOk(r', i) { assert LevelOk(r, i); }
    }
    r'
  }

  /** A merge moves the content up unchanged, and strictly lowers the pair of the number of
      keys still to merge and the number of levels still to visit, unless it merges a single
      key on the last level. */
  lemma MergeLevelKeeps(c: Crypto, f: Forest, lev: nat)
    requires lev < |f| && ForestOk(f, lev)
    ensures var r := MergeLevel(c, f, lev);
            LeavesFrom(r, lev + 1) == LeavesFrom(f, lev) &&
            KeysFrom(r, lev + 1) <= KeysFrom(f, lev) &&
            (|f[lev]| > 1 || lev + 1 < |f| ==>
              |r| + KeysFrom(r, lev + 1) <= |f| + KeysFrom(f, lev) &&
              (KeysFrom(r, lev + 1) < KeysFrom(f, lev) || |r| == |f|))
  {
    assert LevelOk(f, lev);
    NodeOk(f[lev], lev);
    var nk := Node(f[lev]);
    AddTreeOrder(c, f, nk, lev + 1);
    AddTreeCount(c, f, nk, lev + 1);
    var r := AddTree(c, f, nk);
    LeavesFromFrame(r, SetLevel(r, lev, []), lev + 1);
  }

  /** The keys fit the metadata limit and nothing lies above them. */
  predicate Done(f: Forest, lev: nat, limit: nat)
    requires lev < |f|
  {
    IndirectSize(|f[lev]|) <= limit && lev == |f| - 1
  }

  /** What `finish` ends up with. The limit admits at least one key. */
  function MergeUp(c: Crypto, f: Forest, lev: nat, limit: nat): (top: seq<Tree>)
    requires lev < |f| && ForestOk(f, lev) && limit >= IndirectSize(1)
    ensures AllLeaves(top) == LeavesFrom(f, lev)
    ensures 0 < |top| <= MAXKEYS && IndirectSize(|top|) <= limit
    ensures TreesOk(top, Level(top[0]))
    ensures lev <= Level(top[0]) < |f| + KeysFrom(f, lev)
    decreases KeysFrom(f, lev), |f| - lev
  {
    assert LevelOk(f, lev);
    if Done(f, lev, limit) then
      assert LeavesFrom(f, lev) == LeavesFrom(f, lev + 1) + AllLeaves(f[lev]);
      f[lev]
    else
      MergeLevelKeeps(c, f, lev);
      MergeUp(c, MergeLevel(c, f, lev), lev + 1, limit)
  }
}
