/** The engine's memory against the level book: what the steps of the engine lead to, and the book
    that a consistent store holds. */
module StoreBook {
  import opened Machine
  import opened FlatHashMaps
  import opened Pools
  import opened PriceTime
  import opened LevelBook
  import BookRefinement
  import BookRuns
  import opened OrderStore
  import opened StoreSteps
  import opened StoreMatching

  const INDEX_CAPACITY: nat := 4096

  lemma IndexCapacityLegal()
    ensures IsCapacity(INDEX_CAPACITY)
  {
    Pow2Add(4, 8);
    Pow2Add(4, 4);
    assert Pow2(4) == 16;
    assert Pow2(12) == 4096;
  }

  /** The parts of an engine are sound, each for itself, and have the engine's sizes. */
  ghost predicate SoundParts(pool: Pool<Order>, orders: FlatHashMap<nat>, bids: array<PriceLevel>, asks: array<PriceLevel>)
    reads pool, pool.blocks, orders, orders.slots
  {
    && pool.Valid() && pool.capacity == CAPACITY
    && orders.Valid() && orders.capacity == INDEX_CAPACITY
    && bids.Length == asks.Length == LEVELS && bids != asks
  }

  // ----- the stores that the steps lead to

  /** A store is the one that a trade leads to if its parts are. */
  lemma TradedStore(st: Store, s: Side, p: Tick, held: nat, x: nat, total: nat, st1: Store)
    requires TradeReady(st, s, p, held, x)
    requires var cur := st.Lists(s)[p][0];
      st1.mem == OrderStore.SetQty(OrderStore.SetQty(st.mem, cur, st.mem[cur].value.qty - x), held, st.mem[held].value.qty - x)
    requires st1.Levels(s) == st.Levels(s)[p := WithTotal(st.Levels(s)[p], total)]
    requires st1.Levels(s.Other()) == st.Levels(s.Other())
    requires st1.bidLists == st.bidLists && st1.askLists == st.askLists && st1.live == st.live && st1.index == st.index
    ensures st1 == Traded(st, s, p, held, x, total)
  {
    assert st.Lists(s)[p := st.Lists(s)[p]] == st.Lists(s);
  }

  lemma RemovedStore(st: Store, s: Side, p: Tick, k: nat, link: Ptr, total: nat, st1: Store, b: nat)
    requires RemoveReady(st, s, p, k) && b == st.Lists(s)[p][k]
    requires st1.mem == Unlinked(st.mem, st.mem[b].value)[b := Link(link)]
    requires st1.live == st.live - {b} && st1.index == st.index - {st.mem[b].value.id}
    requires st1.Levels(s) == st.Levels(s)[p := WithTotal(LevelUnlinked(st.Levels(s)[p], st.mem[b].value), total)]
    requires st1.Levels(s.Other()) == st.Levels(s.Other()) && st1.Lists(s.Other()) == st.Lists(s.Other())
    requires st1.Lists(s) == st.Lists(s)[p := Omit(st.Lists(s)[p], k)]
    ensures st1 == Removed(st, s, p, k, link, total)
  {
  }

  lemma RestedStore(st: Store, s: Side, p: Tick, b: nat, total: nat, st1: Store)
    requires RestReady(st, s, p, b)
    requires st1.mem == Appended(st.mem, st.Levels(s)[p], b) && st1.live == st.live
    requires st1.Levels(s) == st.Levels(s)[p := WithTotal(LevelAppended(st.Levels(s)[p], b), total)]
    requires st1.index == st.index[st.mem[b].value.id := b]
    requires st1.Levels(s.Other()) == st.Levels(s.Other()) && st1.Lists(s.Other()) == st.Lists(s.Other())
    requires st1.Lists(s) == st.Lists(s)[p := st.Lists(s)[p] + [b]]
    ensures st1 == Rested(st, s, p, b, total)
  {
  }

  lemma HeadIsFront(st: Store, s: Side, p: Tick, held: nat)
    requires st.Consistent({held}) && held < |st.mem| && st.mem[held].Data? && st.Levels(s)[p].head != Null
    ensures st.Lists(s)[p] != [] && st.Levels(s)[p].head == Ref(st.Lists(s)[p][0])
    ensures var b := st.Lists(s)[p][0];
      && b < |st.mem| && st.mem[b].Data? && st.mem[b].value.prev == Null && st.Queue(s, p)[0] == EntryAt(st.mem, b)
  {
    assert st.LevelOk(s, p);
    FrontIsNode(st, {held}, s, p);
    assert LinkedAt(st.mem, st.Lists(s)[p], 0, s, p);
  }

  lemma FrontCanGo(st: Store, s: Side, p: Tick, held: nat, total: nat)
    requires st.Consistent({held}) && held < |st.mem| && st.mem[held].Data? && st.Lists(s)[p] != []
    requires st.Lists(s)[p][0] < |st.mem| && st.mem[st.Lists(s)[p][0]].Data?
    requires total == Moved(st.Levels(s)[p].total, 0 - TradeQty(st, s, p, held))
    ensures TradeQty(st, s, p, held) <= st.Queue(s, p)[0].qty
    ensures total == Depth(Reduced(st.Queue(s, p), TradeQty(st, s, p, held)))
    ensures ConsumeReady(st, s, p, held, total)
  {
    FrontIsNode(st, {held}, s, p);
    assert st.LevelOk(s, p);
    FrontTotal(st.Queue(s, p), TradeQty(st, s, p, held));
    CanConsume(st, s, p, held, total);
  }

  lemma ConsumedShorter(st: Store, s: Side, p: Tick, held: nat, total: nat, link: Ptr)
    requires ConsumeReady(st, s, p, held, total)
    ensures var st' := Consumed(st, s, p, held, total, link);
      var gone := st.mem[st.Lists(s)[p][0]].value.qty == TradeQty(st, s, p, held);
      st'.Shaped() && (gone ==> |st'.Lists(s)[p]| < |st.Lists(s)[p]|)
  {
  }

  lemma TotalsAreDepths(st: Store)
    requires st.Consistent({})
    ensures forall p: Tick :: st.bids[p].total == Depth(st.Wall(Yes)[p]) && st.asks[p].total == Depth(st.Wall(No)[p])
  {
    forall p: Tick
      ensures st.bids[p].total == Depth(st.Wall(Yes)[p]) && st.asks[p].total == Depth(st.Wall(No)[p])
    {
      assert st.LevelOk(Yes, p) && st.LevelOk(No, p);
    }
  }

  // ----- the store and the level book

  /** The store's queues are the book's levels. */
  ghost predicate Mirrors(st: Store, b: Book) {
    st.Shaped() && st.Wall(Yes) == b.bids && st.Wall(No) == b.asks
  }

  /** All parts agree, and what they hold is exactly the book b. */
  ghost predicate Agrees(st: Store, bestBid: Tick, bestAsk: Tick, next: Word, b: Book) {
    st.Consistent({}) && Mirrors(st, b) && bestBid == b.bestBid && bestAsk == b.bestAsk && next == b.nextId
  }

  lemma SideMirrors(st: Store, b: Book, s: Side)
    requires Mirrors(st, b)
    ensures st.Wall(s) == b.Side(s) && forall p: Tick :: b.Side(s)[p] == st.Queue(s, p)
  {
  }

  lemma SameWall(st: Store, st': Store, s: Side)
    requires st.Shaped() && st'.Shaped() && StoreMatching.SameSide(st, st', s)
    ensures st'.Wall(s) == st.Wall(s)
  {
    forall p: Tick
      ensures st'.Wall(s)[p] == st.Wall(s)[p]
    {
    }
  }

  lemma MirrorsWith(st: Store, st': Store, b: Book, s: Side, w: Wall)
    requires Mirrors(st, b) && st'.Shaped() && st'.Wall(s) == w && StoreMatching.SameSide(st, st', s.Other())
    ensures Mirrors(st', b.With(s, w))
  {
    SameWall(st, st', s.Other());
    SideMirrors(st, b, s.Other());
  }

  /** After the sweep the store mirrors the swept book. */
  lemma SweptMirrors(st: Store, st': Store, b: Book, held: nat, t: Taker, fills: seq<Fill>)
    requires Mirrors(st, b) && 1 <= t.limit <= 99
    requires WallMatched(st, st', t.side.Other(), Start(b, t.side), held, t, fills)
    ensures var m := Swept(b, t, st.mem[held].value.qty);
      && Mirrors(st', b.With(t.side.Other(), m.wall)) && fills == m.fills && st'.mem[held].value.qty == m.qty
  {
    SideMirrors(st, b, t.side.Other());
    MirrorsWith(st, st', b, t.side.Other(), st'.Wall(t.side.Other()));
  }

  lemma RestedMirrors(st: Store, st': Store, b: Book, s: Side, p: Tick, e: Entry)
    requires Mirrors(st, b) && st'.Shaped() && SameQueues(st, st', s, p) && st'.Queue(s, p) == st.Queue(s, p) + [e]
    ensures Mirrors(st', Rest(b, s, p, e))
  {
    SideMirrors(st, b, s);
    WallUpdated(st, st', s, p);
    MirrorsWith(st, st', b, s, st'.Wall(s));
  }

  lemma SameQueuesMirror(st: Store, st': Store, b: Book)
    requires Mirrors(st, b) && st'.Shaped() && forall s: Side, p: Tick :: st'.Queue(s, p) == st.Queue(s, p)
    ensures Mirrors(st', b)
  {
    SameWall(st, st', Yes);
    SameWall(st, st', No);
  }

  /** The held order, of taker t, stands ready to rest in book b or to be dropped. */
  ghost predicate Settleable(st: Store, b: Book, held: nat, t: Taker, client: nat) {
    && st.Consistent({held}) && Mirrors(st, b) && HoldsTaker(st, held, t) && 1 <= t.limit <= 99
    && Fresh(st, t.side, t.limit, held) && st.mem[held].value.client == client
  }

  lemma RestSteps(st: Store, b: Book, held: nat, t: Taker, client: nat, total: nat)
    requires Settleable(st, b, held, t, client) && total == Moved(st.Levels(t.side)[t.limit].total, st.mem[held].value.qty)
    ensures RestReady(st, t.side, t.limit, held)
    ensures var st' := Rested(st, t.side, t.limit, held, total);
      st'.Consistent({}) && Mirrors(st', Rest(b, t.side, t.limit, Entry(t.id, client, st.mem[held].value.qty)))
  {
    CanAppend(st, t.side, t.limit, held);
    assert st.LevelOk(t.side, t.limit);
    BackTotal(st.Queue(t.side, t.limit), EntryAt(st.mem, held));
    RestedConsistent(st, t.side, t.limit, held, total);
    RestedMirrors(st, Rested(st, t.side, t.limit, held, total), b, t.side, t.limit,
                  Entry(t.id, client, st.mem[held].value.qty));
  }

  lemma ReleaseSteps(st: Store, held: nat, link: Ptr, b: Book)
    requires st.Consistent({held}) && Mirrors(st, b) && held < |st.mem|
    ensures Released(st, held, link).Consistent({}) && Mirrors(Released(st, held, link), b)
  {
    ReleasedConsistent(st, held, link);
    SameQueuesMirror(st, Released(st, held, link), b);
  }

  lemma TakenSteps(st: Store, held: nat, t: Taker, client: nat, qty: nat, b: Book)
    requires st.Consistent({}) && Mirrors(st, b) && held < |st.mem| && held !in st.live && t.id < WORD
    ensures var st1 := Taken(st, held, Order(t.id, client, t.side, t.limit, qty, t.ts, Null, Null));
      st1.Consistent({held}) && Mirrors(st1, b) && HoldsTaker(st1, held, t)
  {
    var n := Order(t.id, client, t.side, t.limit, qty, t.ts, Null, Null);
    TakenConsistent(st, held, n);
    SameQueuesMirror(st, Taken(st, held, n), b);
  }

  /** The book once the remainder of t, if any, has come to rest. */
  ghost function WithRemainder(c: Book, t: Taker, client: nat, left: nat): Book
    requires t.limit < LEVELS
  {
    if left > 0 then Rest(c, t.side, t.limit, Entry(t.id, client, left)) else c
  }

  lemma SettleIs(b: Book, t: Taker, client: nat, m: WallMatch, d: Book)
    requires 1 <= t.limit <= 99 && d == WithRemainder(b.With(t.side.Other(), m.wall), t, client, m.qty)
    ensures Settle(b, t, client, m) == Rescan(d).Numbered(t.id + 1)
  {
  }

  lemma AgreesSettled(st: Store, bestBid: Tick, bestAsk: Tick, next: Word, b: Book, t: Taker, client: nat, m: WallMatch, d: Book)
    requires 1 <= t.limit <= 99 && d == WithRemainder(b.With(t.side.Other(), m.wall), t, client, m.qty)
    requires st.Consistent({}) && Mirrors(st, d) && next == t.id + 1
    requires bestBid == Rescan(d).bestBid && bestAsk == Rescan(d).bestAsk
    ensures Agrees(st, bestBid, bestAsk, next, Settle(b, t, client, m))
  {
    SettleIs(b, t, client, m, d);
  }

  lemma WithdrawSteps(st: Store, b: Book, s: Side, p: Tick, k: nat, link: Ptr, total: nat, c: Book)
    requires SpotOf(st, b, s, p, k, c) && Mirrors(st, b)
    requires total == Depth(st.Queue(s, p)[..k] + st.Queue(s, p)[k + 1..])
    ensures Removed(st, s, p, k, link, total).Consistent({}) && Mirrors(Removed(st, s, p, k, link, total), c)
  {
    var st' := Removed(st, s, p, k, link, total);
    RemovedConsistent(st, {}, s, p, k, link, total);
    SideMirrors(st, b, s);
    WallUpdated(st, st', s, p);
    MirrorsWith(st, st', b, s, st'.Wall(s));
  }

  lemma WithdrawTotal(st: Store, s: Side, p: Tick, k: nat, qty: nat, total: nat)
    requires CanRemove(st, {}, s, p, k) && qty == st.mem[st.Lists(s)[p][k]].value.qty
    requires total == Moved(st.Levels(s)[p].total, 0 - qty)
    ensures total == Depth(st.Queue(s, p)[..k] + st.Queue(s, p)[k + 1..])
  {
    NodeInList(st, {}, s, p, k);
    assert st.LevelOk(s, p);
    CutTotal(st.Queue(s, p), k);
  }

  lemma NotOwned(st: Store, b: Book, id: Word, client: nat)
    requires st.Consistent({}) && Mirrors(st, b) && id !in st.index
    ensures Cancel(b, id, client) == (b, false)
  {
    CountIds(st, b);
    assert id !in Ids(b);
  }

  /** Position k of a level's list, and the book without it. */
  ghost predicate SpotOf(st: Store, b: Book, s: Side, p: Tick, k: nat, c: Book) {
    && CanRemove(st, {}, s, p, k) && k < |b.Side(s)[p]|
    && c == b.With(s, b.Side(s)[p := Omit(b.Side(s)[p], k)])
  }

  lemma IndexedSpot(st: Store, b: Book, id: Word) returns (k: nat, c: Book)
    requires st.Consistent({}) && Mirrors(st, b) && id in st.index
    ensures st.Rests(st.index[id])
    ensures var n := st.mem[st.index[id]].value;
      && SpotOf(st, b, n.side, n.price, k, c) && st.index[id] == st.Lists(n.side)[n.price][k]
      && b.Side(n.side)[n.price][k] == Entry(id, n.client, n.qty)
  {
    var cur := st.index[id];
    assert st.Rests(cur) && st.Named(cur, id);
    var n := st.mem[cur].value;
    k :| 0 <= k < |st.Lists(n.side)[n.price]| && st.Lists(n.side)[n.price][k] == cur;
    NodeInList(st, {}, n.side, n.price, k);
    SideMirrors(st, b, n.side);
    c := b.With(n.side, b.Side(n.side)[n.price := Omit(b.Side(n.side)[n.price], k)]);
  }

  /** Where an indexed order rests, and what cancelling it leaves. */
  lemma FoundAt(st: Store, b: Book, q: Quotes, id: Word, client: nat) returns (k: nat, c: Book)
    requires st.Consistent({}) && Mirrors(st, b) && BookRefinement.Shows(b, q) && id in st.index
    ensures st.Rests(st.index[id])
    ensures var n := st.mem[st.index[id]].value;
      && SpotOf(st, b, n.side, n.price, k, c) && st.index[id] == st.Lists(n.side)[n.price][k]
      && Cancel(b, id, client) == if client == n.client then (Rescan(c), true) else (b, false)
  {
    k, c := IndexedSpot(st, b, id);
    var n := st.mem[st.index[id]].value;
    CancelledAt(b, q, n.side, n.price, k, client, c);
  }

  lemma CancelledAt(b: Book, q: Quotes, s: Side, p: Tick, k: nat, client: nat, c: Book)
    requires BookRefinement.Shows(b, q) && k < |b.Side(s)[p]|
    requires c == b.With(s, b.Side(s)[p := Omit(b.Side(s)[p], k)])
    ensures var e := b.Side(s)[p][k];
      Cancel(b, e.id, client) == if client == e.client then (Rescan(c), true) else (b, false)
  {
    var w, e := b.Side(s), b.Side(s)[p][k];
    BookRefinement.WallWithoutPresent(w, s, q, b.nextId, p, k);
    BookRefinement.WallWithoutAbsent(b.Side(s.Other()), e.id);
    assert c == Dropped(b, e.id);
    BookRefinement.OwnsQuote(b.bids, Yes, q, e.id, client);
    BookRefinement.OwnsQuote(b.asks, No, q, e.id, client);
  }

  /** As many blocks are live as ids rest in the book. */
  lemma CountIds(st: Store, b: Book)
    requires st.Consistent({}) && Mirrors(st, b)
    ensures |Ids(b)| == |st.live| && st.index.Keys == Ids(b)
  {
    forall id: nat
      ensures id in st.index.Keys <==> id in Ids(b)
    {
      if id < WORD {
        IndexIsIds(st, id);
      } else {
        NoWideIds(st, b, id);
      }
    }
    assert st.index.Keys == Ids(b);
    LiveCount(st, {});
    assert |st.index.Keys| == |st.index|;
  }

  lemma LiveIsPositive(st: Store, b: Book, q: Quotes, block: nat)
    requires st.Consistent({}) && Mirrors(st, b) && BookRefinement.Shows(b, q) && block in st.live
    ensures block < |st.mem| && st.mem[block].Data? && st.mem[block].value.qty > 0
  {
    assert st.Rests(block);
    var n := st.mem[block].value;
    var k :| 0 <= k < |st.Lists(n.side)[n.price]| && st.Lists(n.side)[n.price][k] == block;
    SideMirrors(st, b, n.side);
    assert BookRefinement.GoodEntry(b.Side(n.side)[n.price][k], b.nextId);
  }

  lemma NoWideIds(st: Store, b: Book, id: nat)
    requires st.Consistent({}) && Mirrors(st, b) && id >= WORD
    ensures id !in Ids(b)
  {
    forall s: Side, p: Tick, i | 0 <= i < |st.Queue(s, p)|
      ensures st.Queue(s, p)[i].id < WORD
    {
      NodeInList(st, {}, s, p, i);
    }
    assert forall p: Tick :: b.bids[p] == st.Queue(Yes, p) && b.asks[p] == st.Queue(No, p);
  }

  /** The reference book that a reachable book shows. */
  lemma QuotesOf(history: seq<Op>) returns (q: Quotes)
    ensures BookRefinement.Shows(State(history), q)
  {
    var states := BookRuns.RunRefines(false, history);
    q := states[|history|].quotes;
  }

  /** Every id in the book was handed out before. */
  lemma IdsBelowNext(history: seq<Op>)
    ensures State(history).nextId !in Ids(State(history))
  {
    var q := QuotesOf(history);
    BookRefinement.ShowsIds(State(history), q);
    BookRefinement.NextIsFresh(State(history), q);
  }

  lemma EmptyStore(st: Store)
    requires st.bids == seq(LEVELS, _ => PriceLevel(Null, Null, 0)) && st.asks == st.bids
    requires st.bidLists == seq(LEVELS, _ => []) && st.askLists == st.bidLists
    requires st.live == {} && st.index == map[]
    ensures st.Consistent({}) && st.Wall(Yes) == EmptyWall() && st.Wall(No) == EmptyWall()
  {
    assert forall s: Side, p: Tick :: st.LevelOk(s, p);
  }
}
