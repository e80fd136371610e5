/** Conservation over whole reads: what the table of regions still needs, what has been delivered
    and what has been reported missing always add up to the data chunks asked for. */
module Conservation {
  import opened Bytes
  import opened OpaqueMeta
  import opened KeyTree
  import opened Reading
  import opened ReaderTable

  /** A region together with the tree its key stands for. */
  datatype Item = Item(region: Region, tree: Tree)

  ghost predicate ItemOk(c: Crypto, i: Item) {
    TreeOk(i.tree) && Representable(i.tree) && i.region.key == KeyOf(c, i.tree)
  }

  ghost predicate AllItemsOk(c: Crypto, items: seq<Item>) {
    forall i :: i in items ==> ItemOk(c, i)
  }

  function RegionsOf(items: seq<Item>): (rs: seq<Region>)
    ensures |rs| == |items| && forall k :: 0 <= k < |items| ==> rs[k] == items[k].region
  {
    if items == [] then [] else [items[0].region] + RegionsOf(items[1..])
  }

  /** The data chunks still to be delivered for one region. */
  ghost function NeedOf(i: Item): seq<Part> {
    Select(i.tree, i.region.byteofs, i.region.recofs, i.region.want)
  }

  /** The same for a table of regions, oldest first. */
  ghost function Needs(items: seq<Item>): seq<Part> {
    if items == [] then [] else Needs(items[1..]) + NeedOf(items[0])
  }

  // ----- the table -----

  ghost function ItemsWaiting(items: seq<Item>, h: OuterHash): seq<Item> {
    if items == [] then [] else
      (if items[0].region.key.ohash == h then [items[0]] else []) + ItemsWaiting(items[1..], h)
  }

  ghost function OtherItems(items: seq<Item>, h: OuterHash): seq<Item> {
    if items == [] then [] else
      (if items[0].region.key.ohash == h then [] else [items[0]]) + OtherItems(items[1..], h)
  }

  lemma {:induction false} WaitingItems(items: seq<Item>, h: OuterHash)
    ensures Waiting(RegionsOf(items), h) == RegionsOf(ItemsWaiting(items, h))
  {
    if items != [] {
      assert RegionsOf(items)[1..] == RegionsOf(items[1..]);
      WaitingItems(items[1..], h);
      RegionsOfCons(items[0], ItemsWaiting(items[1..], h));
    }
  }

  lemma {:induction false} OthersItems(items: seq<Item>, h: OuterHash)
    ensures Others(RegionsOf(items), h) == RegionsOf(OtherItems(items, h))
  {
    if items != [] {
      assert RegionsOf(items)[1..] == RegionsOf(items[1..]);
      OthersItems(items[1..], h);
      RegionsOfCons(items[0], OtherItems(items[1..], h));
    }
  }

  lemma RegionsOfCons(i: Item, items: seq<Item>)
    ensures RegionsOf([i] + items) == [i.region] + RegionsOf(items)
    ensures RegionsOf([] + items) == [] + RegionsOf(items)
  {
    assert ([i] + items)[1..] == items;
    assert [] + items == items;
  }

  lemma NeedsCons(i: Item, items: seq<Item>)
    ensures Needs([i] + items) == Needs(items) + NeedOf(i)
    ensures Needs([] + items) == Needs(items)
  {
    assert ([i] + items)[1..] == items;
    assert [] + items == items;
  }

  lemma Count3(a: seq<Part>, b: seq<Part>, c: seq<Part>, d: seq<Part>)
    requires multiset(a) == multiset(b) + multiset(c)
    ensures multiset(a + d) == multiset(b + d) + multiset(c)
    ensures multiset(a + d) == multiset(b) + multiset(c + d)
  {
  }

  /** Taking out the regions that wait for a hash splits what is needed. */
  lemma {:induction false} NeedsSplit(items: seq<Item>, h: OuterHash)
    ensures multiset(Needs(items)) ==
            multiset(Needs(ItemsWaiting(items, h))) + multiset(Needs(OtherItems(items, h)))
  {
    if items != [] {
      NeedsSplit(items[1..], h);
      NeedsCons(items[0], ItemsWaiting(items[1..], h));
      NeedsCons(items[0], OtherItems(items[1..], h));
      Count3(Needs(items[1..]), Needs(ItemsWaiting(items[1..], h)), Needs(OtherItems(items[1..], h)),
             NeedOf(items[0]));
    }
  }

  lemma {:induction false} ItemsSplit(items: seq<Item>, h: OuterHash)
    ensures forall i :: i in ItemsWaiting(items, h) ==> i in items && i.region.key.ohash == h
    ensures forall i :: i in OtherItems(items, h) ==> i in items && i.region.key.ohash != h
  {
    if items != [] {
      ItemsSplit(items[1..], h);
    }
  }

  lemma {:induction false} NeedsConcat(items: seq<Item>, js: seq<Item>)
    ensures Needs(items + js) == Needs(js) + Needs(items)
  {
    if items == [] {
      assert items + js == js;
    } else {
      assert (items + js)[1..] == items[1..] + js;
      NeedsConcat(items[1..], js);
      Assoc(Needs(js), Needs(items[1..]), NeedOf(items[0]));
    }
  }

  // ----- adding the keys of a key chunk -----

  ghost predicate KidsOk(c: Crypto, ts: seq<Tree>) {
    forall k :: 0 <= k < |ts| ==> TreeOk(ts[k]) && Representable(ts[k])
  }

  lemma KidsOkTail(c: Crypto, ts: seq<Tree>)
    requires KidsOk(c, ts) && ts != []
    ensures KidsOk(c, ts[1..])
  {
  }

  /** The region for a subtree that begins at byte `bo` and record `ro`, if any of it is wanted. */
  ghost function OwnItem(c: Crypto, t: Tree, bo: nat, ro: nat, w: Want): (items: seq<Item>)
    requires TreeOk(t)
    ensures forall i :: i in items ==> i.tree == t && i.region.key == KeyOf(c, t)
  {
    if Reaches(bo, ro, Size(t), Recs(t), w) then [Item(Region(bo, ro, KeyOf(c, t), w), t)] else []
  }

  /** The regions `addKeys` inserts, newest first. */
  ghost function AddedItems(c: Crypto, ts: seq<Tree>, bo: nat, ro: nat, w: Want): seq<Item>
    requires KidsOk(c, ts)
  {
    if ts == [] || Past(bo, ro, w) then [] else
      AddedItems(c, ts[1..], bo + Size(ts[0]), ro + Recs(ts[0]), w) + OwnItem(c, ts[0], bo, ro, w)
  }

  /** The new regions need exactly the data chunks the descent selects. */
  lemma {:induction false} AddedNeeds(c: Crypto, ts: seq<Tree>, bo: nat, ro: nat, w: Want)
    requires KidsOk(c, ts)
    ensures Needs(AddedItems(c, ts, bo, ro, w)) == SelectAll(ts, bo, ro, w)
  {
    if ts != [] && !Past(bo, ro, w) {
      var bo', ro' := bo + Size(ts[0]), ro + Recs(ts[0]);
      KidsOkTail(c, ts);
      AddedNeeds(c, ts[1..], bo', ro', w);
      OwnNeeds(c, AddedItems(c, ts[1..], bo', ro', w), ts[0], bo, ro, w);
    }
  }

  lemma OwnNeeds(c: Crypto, items: seq<Item>, t: Tree, bo: nat, ro: nat, w: Want)
    requires TreeOk(t)
    ensures Needs(items + OwnItem(c, t, bo, ro, w)) ==
            (if Reaches(bo, ro, Size(t), Recs(t), w) then Select(t, bo, ro, w) else []) + Needs(items)
  {
    if Reaches(bo, ro, Size(t), Recs(t), w) {
      NeedsSnoc(items, Item(Region(bo, ro, KeyOf(c, t), w), t));
    } else {
      NeedsNothing(items);
    }
  }

  lemma NeedsSnoc(items: seq<Item>, i: Item)
    ensures Needs(items + [i]) == NeedOf(i) + Needs(items)
  {
    NeedsConcat(items, [i]);
    assert [i][1..] == [];
    assert Needs([i]) == [] + NeedOf(i);
  }

  lemma NeedsNothing(items: seq<Item>)
    ensures Needs(items + []) == [] + Needs(items)
  {
    assert items + [] == items;
  }

  /** They are sound, and their keys are keys of the subtrees. */
  lemma {:induction false} AddedItemsOk(c: Crypto, ts: seq<Tree>, bo: nat, ro: nat, w: Want, i: Item)
    requires KidsOk(c, ts) && i in AddedItems(c, ts, bo, ro, w)
    ensures ItemOk(c, i) && i.region.key in KeysOf(c, ts)
  {
    KidsOkTail(c, ts);
    if i in AddedItems(c, ts[1..], bo + Size(ts[0]), ro + Recs(ts[0]), w) {
      AddedItemsOk(c, ts[1..], bo + Size(ts[0]), ro + Recs(ts[0]), w, i);
    } else {
      assert i in OwnItem(c, ts[0], bo, ro, w);
      assert KeysOf(c, ts)[0] == KeyOf(c, ts[0]);
    }
  }

  /** They are the items behind the regions `addKeys` inserts. */
  lemma {:induction false} AddedItemsAre(c: Crypto, ts: seq<Tree>, ks: seq<OpaqueKey>, bo: nat, ro: nat, w: Want)
    requires KidsOk(c, ts) && ks == KeysOf(c, ts)
    ensures AddedRegions(ks, bo, ro, w) == RegionsOf(AddedItems(c, ts, bo, ro, w))
  {
    if ts != [] && !Past(bo, ro, w) {
      var bo', ro' := bo + Size(ts[0]), ro + Recs(ts[0]);
      KidsOkTail(c, ts);
      var tail, own := AddedItems(c, ts[1..], bo', ro', w), OwnItem(c, ts[0], bo, ro, w);
      AddedItemsAre(c, ts[1..], KeysOf(c, ts[1..]), bo', ro', w);
      FirstKey(c, ts, bo, ro, w);
      AddedStep(ks, bo, ro, bo', ro', w);
      AddedItemsStep(c, ts, bo, ro, w, bo', ro');
      RegionsOfConcat(tail, own);
    }
  }

  lemma AddedItemsStep(c: Crypto, ts: seq<Tree>, bo: nat, ro: nat, w: Want, bo': nat, ro': nat)
    requires KidsOk(c, ts) && ts != [] && !Past(bo, ro, w)
    requires bo' == bo + Size(ts[0]) && ro' == ro + Recs(ts[0])
    ensures KidsOk(c, ts[1..])
    ensures AddedItems(c, ts, bo, ro, w) ==
            AddedItems(c, ts[1..], bo', ro', w) + OwnItem(c, ts[0], bo, ro, w)
  {
    KidsOkTail(c, ts);
  }

  lemma FirstKey(c: Crypto, ts: seq<Tree>, bo: nat, ro: nat, w: Want)
    requires KidsOk(c, ts) && ts != []
    ensures KidsOk(c, ts[1..]) && KeysOf(c, ts)[1..] == KeysOf(c, ts[1..])
    ensures var k := KeyOf(c, ts[0]); Usable(k) && k.isize == Size(ts[0]) && k.irecs == Recs(ts[0])
    ensures RegionsOf(OwnItem(c, ts[0], bo, ro, w)) == OwnRegion(KeyOf(c, ts[0]), bo, ro, w)
  {
    KidsOkTail(c, ts);
    KeyFacts(c, ts[0]);
    OwnItemIs(c, ts[0], bo, ro, w);
  }

  lemma AddedStep(ks: seq<OpaqueKey>, bo: nat, ro: nat, bo': nat, ro': nat, w: Want)
    requires ks != [] && Usable(ks[0]) && !Past(bo, ro, w)
    requires bo' == bo + ks[0].isize && ro' == ro + ks[0].irecs
    ensures AddedRegions(ks, bo, ro, w) ==
            AddedRegions(ks[1..], bo', ro', w) + OwnRegion(ks[0], bo, ro, w)
  {
  }

  lemma OwnItemIs(c: Crypto, t: Tree, bo: nat, ro: nat, w: Want)
    requires TreeOk(t)
    ensures RegionsOf(OwnItem(c, t, bo, ro, w)) == OwnRegion(KeyOf(c, t), bo, ro, w)
  {
    KeyFacts(c, t);
  }

  lemma RegionsOfConcat(items: seq<Item>, js: seq<Item>)
    ensures RegionsOf(items + js) == RegionsOf(items) + RegionsOf(js)
  {
  }

  // ----- what a chunk does to the regions waiting for it -----

  ghost function FailedItems(c: Crypto, items: seq<Item>, cyph: bytes): seq<Item> {
    if items == [] then [] else
      (if Examine(c, items[0].region.key, cyph).BadChunk? then [items[0]] else []) +
      FailedItems(c, items[1..], cyph)
  }

  lemma KidsOkOf(c: Crypto, t: Tree)
    requires TreeOk(t) && Representable(t) && t.Node?
    ensures KidsOk(c, t.kids)
  {
    KidsFit(c, t);
  }

  /** The regions that replace those waiting for a key chunk, newest first. */
  ghost function BelowItems(c: Crypto, i: Item, cyph: bytes): seq<Item>
    requires ItemOk(c, i)
  {
    var r := i.region;
    if i.tree.Node? && Examine(c, r.key, cyph).SubKeys? then
      KidsOkOf(c, i.tree);
      AddedItems(c, i.tree.kids, r.byteofs, r.recofs, r.want)
    else []
  }

  ghost function ExpandedItems(c: Crypto, items: seq<Item>, cyph: bytes): seq<Item>
    requires AllItemsOk(c, items)
  {
    if items == [] then [] else
      assert ItemOk(c, items[0]);
      ExpandedItems(c, items[1..], cyph) + BelowItems(c, items[0], cyph)
  }

  /** The chunk is the one the coder made for every region that waits for it, or one that fails
      a check. */
  ghost predicate Authentic(c: Crypto, items: seq<Item>, cyph: bytes)
    requires AllItemsOk(c, items)
  {
    forall i :: i in items ==> ItemOk(c, i) && AuthenticFor(c, i, cyph)
  }

  ghost predicate AuthenticFor(c: Crypto, i: Item, cyph: bytes)
    requires ItemOk(c, i)
  {
    cyph == ChunkOf(c, i.tree).1 || Examine(c, i.region.key, cyph).BadChunk?
  }

  lemma {:induction false} FailedItemsAre(c: Crypto, items: seq<Item>, cyph: bytes)
    ensures Failed(c, RegionsOf(items), cyph) == RegionsOf(FailedItems(c, items, cyph))
    ensures forall i :: i in FailedItems(c, items, cyph) ==> i in items
  {
    if items != [] {
      assert RegionsOf(items)[1..] == RegionsOf(items[1..]);
      FailedItemsAre(c, items[1..], cyph);
      RegionsOfCons(items[0], FailedItems(c, items[1..], cyph));
    }
  }

  lemma BelowItemsAre(c: Crypto, i: Item, cyph: bytes)
    requires ItemOk(c, i) && AuthenticFor(c, i, cyph)
    ensures BelowOf(c, i.region, cyph) == RegionsOf(BelowItems(c, i, cyph))
  {
    if !Examine(c, i.region.key, cyph).BadChunk? {
      ExamineOwnChunk(c, i.tree);
      if i.tree.Node? {
        KidsOkOf(c, i.tree);
        AddedItemsAre(c, i.tree.kids, KeysOf(c, i.tree.kids), i.region.byteofs, i.region.recofs, i.region.want);
      }
    }
  }

  lemma {:induction false} ExpandedItemsAre(c: Crypto, items: seq<Item>, cyph: bytes)
    requires AllItemsOk(c, items) && Authentic(c, items, cyph)
    ensures Expanded(c, RegionsOf(items), cyph) == RegionsOf(ExpandedItems(c, items, cyph))
  {
    if items != [] {
      assert items[0] in items;
      assert RegionsOf(items)[1..] == RegionsOf(items[1..]);
      ExpandedItemsAre(c, items[1..], cyph);
      BelowItemsAre(c, items[0], cyph);
      RegionsOfConcat(ExpandedItems(c, items[1..], cyph), BelowItems(c, items[0], cyph));
    }
  }

  ghost function LostOf(c: Crypto, i: Item, cyph: bytes): seq<Part> {
    if Examine(c, i.region.key, cyph).BadChunk? then NeedOf(i) else []
  }

  /** One region: what it needed is delivered, or still needed below, or missing. */
  lemma OneConserved(c: Crypto, i: Item, cyph: bytes)
    requires ItemOk(c, i) && AuthenticFor(c, i, cyph)
    ensures NeedOf(i) == DataOf(c, i.region, cyph) + Needs(BelowItems(c, i, cyph)) + LostOf(c, i, cyph)
  {
    if !Examine(c, i.region.key, cyph).BadChunk? {
      ExamineOwnChunk(c, i.tree);
      KeyFacts(c, i.tree);
      match i.tree {
        case Leaf(p) => OnePiece(p);
        case Node(kids) =>
          KidsOkOf(c, i.tree);
          AddedNeeds(c, kids, i.region.byteofs, i.region.recofs, i.region.want);
      }
    }
  }

  lemma CountStep(a: seq<Part>, d: seq<Part>, b: seq<Part>, l: seq<Part>,
                  n: seq<Part>, d1: seq<Part>, b1: seq<Part>, l1: seq<Part>)
    requires multiset(a) == multiset(d) + multiset(b) + multiset(l) && n == d1 + b1 + l1
    ensures multiset(a + n) == multiset(d1 + d) + multiset(b1 + b) + multiset(l + l1)
  {
  }

  /** All regions waiting for a chunk: nothing of what they needed is dropped or made up. */
  lemma {:induction false} AllConserved(c: Crypto, items: seq<Item>, cyph: bytes)
    requires AllItemsOk(c, items) && Authentic(c, items, cyph)
    ensures multiset(Needs(items)) ==
            multiset(Delivered(c, RegionsOf(items), cyph)) + multiset(Needs(ExpandedItems(c, items, cyph))) +
            multiset(Needs(FailedItems(c, items, cyph)))
  {
    if items != [] {
      var i, rest := items[0], items[1..];
      assert i in items;
      AllConserved(c, rest, cyph);
      OneConserved(c, i, cyph);
      assert RegionsOf(items)[1..] == RegionsOf(rest);
      NeedsConcat(ExpandedItems(c, rest, cyph), BelowItems(c, i, cyph));
      NeedsCons(i, FailedItems(c, rest, cyph));
      assert Needs(FailedItems(c, items, cyph)) == Needs(FailedItems(c, rest, cyph)) + LostOf(c, i, cyph);
      CountStep(Needs(rest), Delivered(c, RegionsOf(rest), cyph), Needs(ExpandedItems(c, rest, cyph)),
                Needs(FailedItems(c, rest, cyph)), NeedOf(i), DataOf(c, i.region, cyph),
                Needs(BelowItems(c, i, cyph)), LostOf(c, i, cyph));
    }
  }

  /** The items that come in are sound. */
  lemma {:induction false} ExpandedItemsOk(c: Crypto, items: seq<Item>, cyph: bytes)
    requires AllItemsOk(c, items)
    ensures AllItemsOk(c, ExpandedItems(c, items, cyph))
  {
    if items != [] {
      ExpandedItemsOk(c, items[1..], cyph);
      var i := items[0];
      assert ItemOk(c, i);
      forall j | j in BelowItems(c, i, cyph) ensures ItemOk(c, j) {
        KidsOkOf(c, i.tree);
        AddedItemsOk(c, i.tree.kids, i.region.byteofs, i.region.recofs, i.region.want, j);
      }
    }
  }

  // ----- one answer -----

  /** The items behind the pending and the missing regions of a state. */
  ghost predicate Tracks(c: Crypto, s: ReadState, items: seq<Item>, missed: seq<Item>) {
    s.regions == RegionsOf(items) && AllItemsOk(c, items) && s.lost == RegionsOf(missed)
  }

  /** Data chunks delivered, still needed, and missing. */
  ghost function Accounted(s: ReadState, items: seq<Item>, missed: seq<Item>): multiset<Part> {
    multiset(s.got) + multiset(Needs(items)) + multiset(Needs(missed))
  }

  lemma SplitCounts(n: seq<Part>, nw: seq<Part>, no: seq<Part>, d: seq<Part>, e: seq<Part>, l: seq<Part>,
                    got: seq<Part>, miss: seq<Part>)
    requires multiset(n) == multiset(nw) + multiset(no)
    requires multiset(nw) == multiset(d) + multiset(e) + multiset(l)
    ensures multiset(got + d) + multiset(no + e) + multiset(l + miss) ==
            multiset(got) + multiset(n) + multiset(miss)
  {
  }

  /** A chunk arrives: data chunks move from needed to delivered or missing; none is dropped,
      none is delivered twice. */
  lemma DataStep(c: Crypto, s: ReadState, items: seq<Item>, missed: seq<Item>, h: OuterHash, cyph: bytes)
    returns (items': seq<Item>, missed': seq<Item>)
    requires Tracks(c, s, items, missed)
    requires AllItemsOk(c, ItemsWaiting(items, h)) && Authentic(c, ItemsWaiting(items, h), cyph)
    ensures Tracks(c, AfterData(c, s, h, cyph), items', missed')
    ensures Accounted(AfterData(c, s, h, cyph), items', missed') == Accounted(s, items, missed)
    ensures items' == ExpandedItems(c, ItemsWaiting(items, h), cyph) + OtherItems(items, h)
    ensures missed' == missed + FailedItems(c, ItemsWaiting(items, h), cyph)
  {
    var ws, os := ItemsWaiting(items, h), OtherItems(items, h);
    var es, fs := ExpandedItems(c, ws, cyph), FailedItems(c, ws, cyph);
    items', missed' := es + os, missed + fs;
    DataTracks(c, s, items, missed, h, cyph);
    NeedsSplit(items, h);
    AllConserved(c, ws, cyph);
    NeedsConcat(es, os);
    NeedsConcat(missed, fs);
    WaitingItems(items, h);
    SplitCounts(Needs(items), Needs(ws), Needs(os), Delivered(c, RegionsOf(ws), cyph), Needs(es), Needs(fs),
                s.got, Needs(missed));
  }

  lemma DataTracks(c: Crypto, s: ReadState, items: seq<Item>, missed: seq<Item>, h: OuterHash, cyph: bytes)
    requires Tracks(c, s, items, missed)
    requires AllItemsOk(c, ItemsWaiting(items, h)) && Authentic(c, ItemsWaiting(items, h), cyph)
    ensures Tracks(c, AfterData(c, s, h, cyph),
                   ExpandedItems(c, ItemsWaiting(items, h), cyph) + OtherItems(items, h),
                   missed + FailedItems(c, ItemsWaiting(items, h), cyph))
  {
    var ws, os := ItemsWaiting(items, h), OtherItems(items, h);
    var es, fs := ExpandedItems(c, ws, cyph), FailedItems(c, ws, cyph);
    WaitingItems(items, h);
    OthersItems(items, h);
    ItemsSplit(items, h);
    ExpandedItemsAre(c, ws, cyph);
    ExpandedItemsOk(c, ws, cyph);
    FailedItemsAre(c, ws, cyph);
    RegionsOfConcat(es, os);
    RegionsOfConcat(missed, fs);
  }

  /** Nobody has the chunk: what its regions needed is missing. */
  lemma NoDataStep(c: Crypto, s: ReadState, items: seq<Item>, missed: seq<Item>, h: OuterHash)
    requires Tracks(c, s, items, missed)
    ensures var items', missed' := OtherItems(items, h), missed + ItemsWaiting(items, h);
            Tracks(c, AfterNoData(s, h), items', missed') &&
            Accounted(AfterNoData(s, h), items', missed') == Accounted(s, items, missed)
  {
    WaitingItems(items, h);
    OthersItems(items, h);
    ItemsSplit(items, h);
    NeedsSplit(items, h);
    NeedsConcat(missed, ItemsWaiting(items, h));
    RegionsOfConcat(missed, ItemsWaiting(items, h));
  }

  // ----- every chunk needed is in the store -----

  type ChunkStore = map<OuterHash, bytes>

  ghost predicate InStore(c: Crypto, items: seq<Item>, store: ChunkStore) {
    forall i :: i in items ==> ItemOk(c, i) && Chunks(c, i.tree) <= store.Items
  }

  lemma {:induction false} KidChunks(c: Crypto, ts: seq<Tree>, k: nat)
    requires k < |ts| && forall i :: 0 <= i < |ts| ==> TreeOk(ts[i])
    ensures Chunks(c, ts[k]) <= AllChunks(c, ts)
  {
    if k > 0 {
      assert ts[k] == ts[1..][k - 1];
      KidChunks(c, ts[1..], k - 1);
    }
  }

  lemma {:induction false} AddedFrom(c: Crypto, ts: seq<Tree>, bo: nat, ro: nat, w: Want, j: Item)
    requires KidsOk(c, ts) && j in AddedItems(c, ts, bo, ro, w)
    ensures j.tree in ts
  {
    KidsOkTail(c, ts);
    if j in AddedItems(c, ts[1..], bo + Size(ts[0]), ro + Recs(ts[0]), w) {
      AddedFrom(c, ts[1..], bo + Size(ts[0]), ro + Recs(ts[0]), w, j);
    } else {
      assert j in OwnItem(c, ts[0], bo, ro, w);
    }
  }

  lemma BelowInStore(c: Crypto, i: Item, cyph: bytes, store: ChunkStore, j: Item)
    requires ItemOk(c, i) && Chunks(c, i.tree) <= store.Items && j in BelowItems(c, i, cyph)
    ensures ItemOk(c, j) && Chunks(c, j.tree) <= store.Items
  {
    KidsOkOf(c, i.tree);
    AddedItemsOk(c, i.tree.kids, i.region.byteofs, i.region.recofs, i.region.want, j);
    AddedFrom(c, i.tree.kids, i.region.byteofs, i.region.recofs, i.region.want, j);
    var k :| 0 <= k < |i.tree.kids| && i.tree.kids[k] == j.tree;
    KidChunks(c, i.tree.kids, k);
  }

  lemma {:induction false} ExpandedInStore(c: Crypto, items: seq<Item>, cyph: bytes, store: ChunkStore)
    requires AllItemsOk(c, items) && InStore(c, items, store)
    ensures InStore(c, ExpandedItems(c, items, cyph), store)
  {
    if items != [] {
      assert items[0] in items;
      ExpandedInStore(c, items[1..], cyph, store);
      forall j | j in BelowItems(c, items[0], cyph) ensures ItemOk(c, j) && Chunks(c, j.tree) <= store.Items {
        BelowInStore(c, items[0], cyph, store, j);
      }
    }
  }

  /** What the store returns for a hash is the chunk of every region that waits for it. */
  lemma StoreIsAuthentic(c: Crypto, items: seq<Item>, store: ChunkStore, h: OuterHash)
    requires InStore(c, items, store) && h in store
    requires forall i :: i in items ==> i.region.key.ohash == h
    ensures AllItemsOk(c, items) && Authentic(c, items, store[h])
    ensures FailedItems(c, items, store[h]) == []
  {
    forall i | i in items
      ensures ItemOk(c, i) && AuthenticFor(c, i, store[h])
      ensures !Examine(c, i.region.key, store[h]).BadChunk?
    {
      assert ChunkOf(c, i.tree) in Chunks(c, i.tree);
      ExamineOwnChunk(c, i.tree);
    }
    NoneFailed(c, items, store[h]);
  }

  lemma {:induction false} NoneFailed(c: Crypto, items: seq<Item>, cyph: bytes)
    requires forall i :: i in items ==> !Examine(c, i.region.key, cyph).BadChunk?
    ensures FailedItems(c, items, cyph) == []
  {
    if items != [] {
      NoneFailed(c, items[1..], cyph);
    }
  }

  // ----- runs -----

  datatype Answer = Found(h: OuterHash, cyph: bytes) | NotFound(h: OuterHash)

  function AfterAnswer(c: Crypto, s: ReadState, a: Answer): ReadState {
    match a
    case Found(h, cyph) => AfterData(c, s, h, cyph)
    case NotFound(h) => AfterNoData(s, h)
  }

  function Answered(c: Crypto, s: ReadState, answers: seq<Answer>): ReadState
    decreases |answers|
  {
    if answers == [] then s else Answered(c, AfterAnswer(c, s, answers[0]), answers[1..])
  }

  ghost predicate FromStore(answers: seq<Answer>, store: ChunkStore) {
    forall a :: a in answers && a.Found? ==> a.h in store && a.cyph == store[a.h]
  }

  lemma AnswerStep(c: Crypto, s: ReadState, items: seq<Item>, missed: seq<Item>, a: Answer, store: ChunkStore)
    returns (items': seq<Item>, missed': seq<Item>)
    requires Tracks(c, s, items, missed) && InStore(c, items, store)
    requires a.Found? ==> a.h in store && a.cyph == store[a.h]
    ensures var s' := AfterAnswer(c, s, a);
            Tracks(c, s', items', missed') && InStore(c, items', store) &&
            Accounted(s', items', missed') == Accounted(s, items, missed)
    ensures a.Found? ==> missed' == missed
  {
    ItemsSplit(items, a.h);
    match a {
      case Found(h, cyph) =>
        var ws := ItemsWaiting(items, h);
        StoreIsAuthentic(c, ws, store, h);
        ExpandedInStore(c, ws, cyph, store);
        items', missed' := DataStep(c, s, items, missed, h, cyph);
        assert missed + [] == missed;
      case NotFound(h) =>
        NoDataStep(c, s, items, missed, h);
        items', missed' := OtherItems(items, h), missed + ItemsWaiting(items, h);
    }
  }

  /** Whatever the order of the answers, and even if some are repeated or were never asked for:
      data chunks delivered, still needed and missing add up to those asked for. */
  lemma {:induction false} RunConserves(c: Crypto, s: ReadState, items: seq<Item>, missed: seq<Item>,
                                        answers: seq<Answer>, store: ChunkStore)
    returns (items': seq<Item>, missed': seq<Item>)
    requires Tracks(c, s, items, missed) && InStore(c, items, store) && FromStore(answers, store)
    ensures var s' := Answered(c, s, answers);
            Tracks(c, s', items', missed') && InStore(c, items', store) &&
            Accounted(s', items', missed') == Accounted(s, items, missed)
    ensures (forall a :: a in answers ==> a.Found?) ==> missed' == missed
    decreases |answers|
  {
    if answers == [] {
      items', missed' := items, missed;
    } else {
      assert answers[0] in answers;
      var items1, missed1 := AnswerStep(c, s, items, missed, answers[0], store);
      items', missed' := RunConserves(c, AfterAnswer(c, s, answers[0]), items1, missed1, answers[1..], store);
    }
  }

  // ----- the same for what the code removes -----

  function ServedAnswer(c: Crypto, s: ReadState, a: Answer): ReadState {
    match a
    case Found(h, cyph) => Served(c, s, h, cyph)
    case NotFound(h) => AfterNoData(s, h)
  }

  function ServedRun(c: Crypto, s: ReadState, answers: seq<Answer>): ReadState
    decreases |answers|
  {
    if answers == [] then s else ServedRun(c, ServedAnswer(c, s, answers[0]), answers[1..])
  }

  /** No chunk of the run lists a region that waits for the same chunk. */
  ghost predicate NoneDropped(c: Crypto, s: ReadState, answers: seq<Answer>)
    decreases |answers|
  {
    answers == [] ||
    var a := answers[0];
    (a.Found? ==> forall r :: r in Expanded(c, Waiting(s.regions, a.h), a.cyph) ==> r.key.ohash != a.h) &&
    NoneDropped(c, ServedAnswer(c, s, a), answers[1..])
  }

  lemma {:induction false} ServedRunIs(c: Crypto, s: ReadState, answers: seq<Answer>)
    requires NoneDropped(c, s, answers)
    ensures ServedRun(c, s, answers) == Answered(c, s, answers)
    decreases |answers|
  {
    if answers != [] {
      if answers[0].Found? {
        ServedIff(c, s, answers[0].h, answers[0].cyph);
      }
      ServedRunIs(c, ServedAnswer(c, s, answers[0]), answers[1..]);
    }
  }

  /** `gotData` and `noData` as they are written conserve the chunks over every run in which no
      region just added is dropped. */
  lemma ServedConserves(c: Crypto, s: ReadState, items: seq<Item>, missed: seq<Item>,
                        answers: seq<Answer>, store: ChunkStore)
    returns (items': seq<Item>, missed': seq<Item>)
    requires Tracks(c, s, items, missed) && InStore(c, items, store) && FromStore(answers, store)
    requires NoneDropped(c, s, answers)
    ensures var s' := ServedRun(c, s, answers);
            Tracks(c, s', items', missed') && InStore(c, items', store) &&
            Accounted(s', items', missed') == Accounted(s, items, missed)
    ensures (forall a :: a in answers ==> a.Found?) ==> missed' == missed
  {
    ServedRunIs(c, s, answers);
    items', missed' := RunConserves(c, s, items, missed, answers, store);
  }

  // ----- every pending chunk has been requested -----

  ghost predicate AllRequested(s: ReadState) {
    forall r :: r in s.regions ==> r.key.ohash in s.requested
  }

  lemma AnswerRequests(c: Crypto, s: ReadState, a: Answer)
    requires AllRequested(s)
    ensures AllRequested(AfterAnswer(c, s, a))
    ensures AfterAnswer(c, s, a).done > s.done <==> AfterAnswer(c, s, a).regions == []
  {
    WaitingWait(s.regions, a.h);
    if a.Found? {
      HashesAreAll(Expanded(c, Waiting(s.regions, a.h), a.cyph));
    }
  }

  /** At any time of any read, every pending region's chunk has been requested. */
  lemma {:induction false} RunRequests(c: Crypto, s: ReadState, answers: seq<Answer>)
    requires AllRequested(s)
    ensures AllRequested(Answered(c, s, answers))
    decreases |answers|
  {
    if answers != [] {
      AnswerRequests(c, s, answers[0]);
      RunRequests(c, AfterAnswer(c, s, answers[0]), answers[1..]);
    }
  }

  // ----- progress -----

  function Nodes(t: Tree): nat {
    match t
    case Leaf(_) => 1
    case Node(kids) => 1 + AllNodes(kids)
  }

  function AllNodes(ts: seq<Tree>): nat { if ts == [] then 0 else Nodes(ts[0]) + AllNodes(ts[1..]) }

  /** Chunks that may still have to be fetched. */
  ghost function Work(items: seq<Item>): nat {
    if items == [] then 0 else Nodes(items[0].tree) + Work(items[1..])
  }

  lemma {:induction false} WorkConcat(items: seq<Item>, js: seq<Item>)
    ensures Work(items + js) == Work(items) + Work(js)
  {
    if items == [] {
      assert items + js == js;
    } else {
      assert (items + js)[1..] == items[1..] + js;
      WorkConcat(items[1..], js);
    }
  }

  lemma WorkOne(c: Crypto, t: Tree, bo: nat, ro: nat, w: Want)
    requires TreeOk(t)
    ensures Work(OwnItem(c, t, bo, ro, w)) <= Nodes(t)
  {
    var i := Item(Region(bo, ro, KeyOf(c, t), w), t);
    assert [i][1..] == [] && Work([i]) == Nodes(t) + 0;
  }

  lemma {:induction false} AddedWork(c: Crypto, ts: seq<Tree>, bo: nat, ro: nat, w: Want)
    requires KidsOk(c, ts)
    ensures Work(AddedItems(c, ts, bo, ro, w)) <= AllNodes(ts)
  {
    if ts != [] && !Past(bo, ro, w) {
      var bo', ro' := bo + Size(ts[0]), ro + Recs(ts[0]);
      KidsOkTail(c, ts);
      AddedWork(c, ts[1..], bo', ro', w);
      AddedItemsStep(c, ts, bo, ro, w, bo', ro');
      WorkConcat(AddedItems(c, ts[1..], bo', ro', w), OwnItem(c, ts[0], bo, ro, w));
      WorkOne(c, ts[0], bo, ro, w);
    }
  }

  lemma {:induction false} ExpandedWork(c: Crypto, items: seq<Item>, cyph: bytes)
    requires AllItemsOk(c, items)
    ensures Work(ExpandedItems(c, items, cyph)) + |items| <= Work(items)
  {
    if items != [] {
      var i := items[0];
      assert ItemOk(c, i);
      ExpandedWork(c, items[1..], cyph);
      WorkConcat(ExpandedItems(c, items[1..], cyph), BelowItems(c, i, cyph));
      if i.tree.Node? {
        KidsOkOf(c, i.tree);
        AddedWork(c, i.tree.kids, i.region.byteofs, i.region.recofs, i.region.want);
      }
    }
  }

  lemma {:induction false} WorkSplit(items: seq<Item>, h: OuterHash)
    ensures Work(items) == Work(ItemsWaiting(items, h)) + Work(OtherItems(items, h))
  {
    if items != [] {
      WorkSplit(items[1..], h);
      WorkConcat(if items[0].region.key.ohash == h then [items[0]] else [], ItemsWaiting(items[1..], h));
      WorkConcat(if items[0].region.key.ohash == h then [] else [items[0]], OtherItems(items[1..], h));
      assert [items[0]][1..] == [] && Work([items[0]]) == Nodes(items[0].tree) + 0;
    }
  }

  /** Every chunk that some region waits for brings the read nearer to its end. */
  lemma DataProgress(c: Crypto, items: seq<Item>, h: OuterHash, cyph: bytes)
    requires AllItemsOk(c, ItemsWaiting(items, h)) && ItemsWaiting(items, h) != []
    ensures Work(ExpandedItems(c, ItemsWaiting(items, h), cyph) + OtherItems(items, h)) < Work(items)
  {
    var ws := ItemsWaiting(items, h);
    ExpandedWork(c, ws, cyph);
    WorkSplit(items, h);
    WorkConcat(ExpandedItems(c, ws, cyph), OtherItems(items, h));
  }
}
