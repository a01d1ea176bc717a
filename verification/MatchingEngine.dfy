/** MatchingEngine of sim/domain/matching_engine.{h,cpp}, on the pool and the hash map of src/core. */
module MatchingEngines {
  import opened Machine
  import opened Options
  import RobinHood
  import opened FlatHashMaps
  import opened Pools
  import opened PriceTime
  import opened LevelBook
  import BookRefinement
  import BookRuns
  import BookCrossing
  import opened OrderStore
  import opened StoreSteps
  import opened StoreMatching
  import opened StoreBook

  class MatchingEngine {
    const pool: Pool<Order>
    const orders: FlatHashMap<nat>
    const bids: array<PriceLevel>
    const asks: array<PriceLevel>
    var bestBid: Tick
    var bestAsk: Tick
    var nextOrderId: Word
    ghost var bidLists: seq<seq<nat>>
    ghost var askLists: seq<seq<nat>>
    ghost var history: seq<Op>

    ghost function St(): Store
      reads this`bidLists, this`askLists, pool, pool.blocks, orders.slots, bids, asks
    {
      Store(pool.blocks[..], bids[..], asks[..], bidLists, askLists, pool.live, orders.Contents())
    }

    /** The parts of the engine are sound, each for itself. */
    ghost predicate Sound()
      reads pool, pool.blocks, orders, orders.slots
    {
      SoundParts(pool, orders, bids, asks)
    }

    /** All parts agree, and what they hold is exactly the book b. */
    ghost predicate Is(b: Book)
      reads this`bidLists, this`askLists, this`bestBid, this`bestAsk, this`nextOrderId
      reads pool, pool.blocks, orders, orders.slots, bids, asks
    {
      Sound() && Agrees(St(), bestBid, bestAsk, nextOrderId, b)
    }

    /** The engine is in exactly the state that the operations so far lead to. */
    ghost predicate Valid()
      reads this, pool, pool.blocks, orders, orders.slots, bids, asks
    {
      Is(State(history))
    }

    constructor (hash: Word -> Word)
      ensures Valid() && history == []
      ensures fresh(pool) && fresh(pool.blocks) && fresh(orders) && fresh(orders.slots) && fresh(bids) && fresh(asks)
    {
      IndexCapacityLegal();
      pool := new Pool<Order>(CAPACITY);
      orders := new FlatHashMap<nat>(INDEX_CAPACITY, hash, 0);
      bids := new PriceLevel[LEVELS](_ => PriceLevel(Null, Null, 0));
      asks := new PriceLevel[LEVELS](_ => PriceLevel(Null, Null, 0));
      bestBid, bestAsk, nextOrderId := 0, 100, 1;
      bidLists, askLists := seq(LEVELS, _ => []), seq(LEVELS, _ => []);
      history := [];
      new;
      EmptyStore(St());
    }

    /** Memory, lists, index, bests and counter. */
    ghost function Snapshot(): (Store, Tick, Tick, Word)
      reads this`bidLists, this`askLists, this`bestBid, this`bestAsk, this`nextOrderId
      reads pool, pool.blocks, orders.slots, bids, asks
    {
      (St(), bestBid, bestAsk, nextOrderId)
    }

    function WallOf(s: Side): array<PriceLevel> {
      if s == Yes then bids else asks
    }

    // ----- single steps through memory

    method WriteQty(b: nat, qty: nat, ghost mem: Memory)
      requires pool.Valid() && b in pool.live && mem == pool.blocks[..] && mem[b].Data?
      modifies pool.blocks
      ensures pool.Valid() && pool.blocks[..] == OrderStore.SetQty(mem, b, qty)
    {
      var n := pool.blocks[b].value;
      pool.Write(b, Order(n.id, n.client, n.side, n.price, qty, n.ts, n.prev, n.next));
    }

    method WriteTotal(wall: array<PriceLevel>, p: Tick, total: nat, ghost levels: seq<PriceLevel>)
      requires wall.Length == LEVELS && levels == wall[..]
      modifies wall
      ensures wall[..] == levels[p := WithTotal(levels[p], total)]
    {
      wall[p] := WithTotal(wall[p], total);
    }

    /** The quantities of one trade; `mem1` is the memory after the first of them. */
    method WriteTrade(cur: nat, held: nat, traded: nat, ghost mem: Memory, ghost mem1: Memory)
      requires pool.Valid() && cur in pool.live && held in pool.live && cur != held && mem == pool.blocks[..]
      requires mem[cur].Data? && traded <= mem[cur].value.qty && mem[held].Data? && traded <= mem[held].value.qty
      requires mem1 == OrderStore.SetQty(mem, cur, mem[cur].value.qty - traded) && mem1[held] == mem[held]
      modifies pool.blocks
      ensures pool.Valid() && pool.blocks[..] == OrderStore.SetQty(mem1, held, mem[held].value.qty - traded)
    {
      var left, rest := pool.blocks[cur].value.qty - traded, pool.blocks[held].value.qty - traded;
      WriteQty(cur, left, mem);
      WriteQty(held, rest, mem1);
    }

    /** Both neighbours of an order, or the ends of its level, are made to point past it. */
    method Unlink(wall: array<PriceLevel>, p: Tick, cur: nat, ghost mem: Memory, ghost levels: seq<PriceLevel>)
      requires pool.Valid() && wall.Length == LEVELS && cur in pool.live && mem == pool.blocks[..] && levels == wall[..]
      requires mem[cur].Data? && Unlinkable(mem, mem[cur].value)
      requires mem[cur].value.prev.Ref? ==> mem[cur].value.prev.block in pool.live
      requires mem[cur].value.next.Ref? ==> mem[cur].value.next.block in pool.live
      modifies pool.blocks, wall
      ensures pool.Valid() && pool.blocks[..] == Unlinked(mem, mem[cur].value)
      ensures wall[..] == levels[p := LevelUnlinked(levels[p], mem[cur].value)]
    {
      var n := pool.blocks[cur].value;
      if n.prev.Ref? {
        pool.Write(n.prev.block, pool.blocks[n.prev.block].value.(next := n.next));
      } else {
        wall[p] := wall[p].(head := n.next);
      }
      if n.next.Ref? {
        pool.Write(n.next.block, pool.blocks[n.next.block].value.(prev := n.prev));
      } else {
        wall[p] := wall[p].(tail := n.prev);
      }
    }

    /** An unlinked order leaves the index and its block goes back to the pool. */
    method Forget(cur: nat, id: Word, ghost mem: Memory) returns (ghost link: Ptr)
      requires Sound() && cur in pool.live && id != RobinHood.EMPTY && mem == pool.blocks[..]
      modifies pool, pool.blocks, orders, orders.slots
      ensures Sound() && pool.live == old(pool.live) - {cur} && pool.blocks[..] == mem[cur := Link(link)]
      ensures orders.Contents() == old(orders.Contents()) - {id}
    {
      link := pool.freeHead;
      var erased := orders.Erase(id);
      pool.Deallocate(cur);
    }

    /** The last step of removing an order that is unlinked already. */
    method Drop(s: Side, p: Tick, cur: nat, id: Word, ghost total: nat, ghost k: nat, ghost st: Store) returns (ghost link: Ptr)
      requires Sound() && RemoveReady(st, s, p, k) && cur == st.Lists(s)[p][k] && id == st.mem[cur].value.id
      requires pool.live == st.live && orders.Contents() == st.index && bidLists == st.bidLists && askLists == st.askLists
      requires pool.blocks[..] == Unlinked(st.mem, st.mem[cur].value)
      requires WallOf(s)[..] == st.Levels(s)[p := WithTotal(LevelUnlinked(st.Levels(s)[p], st.mem[cur].value), total)]
      requires WallOf(s.Other())[..] == st.Levels(s.Other())
      modifies this`bidLists, this`askLists, pool, pool.blocks, orders, orders.slots
      ensures Sound() && St() == Removed(st, s, p, k, link, total)
    {
      orders.KeysLegal();
      link := Forget(cur, id, pool.blocks[..]);
      CutList(s, p, k);
      if s == Yes {
        RemovedStore(st, Yes, p, k, link, total, St(), cur);
      } else {
        RemovedStore(st, No, p, k, link, total, St(), cur);
      }
    }

    /** The front order of a level and the held order trade; `total` is the level's new total. */
    method TradeFront(s: Side, p: Tick, cur: nat, held: nat, traded: nat, total: nat, ghost st: Store)
      requires Sound() && st == St() && TradeReady(st, s, p, held, traded) && cur == st.Lists(s)[p][0]
      modifies pool.blocks, WallOf(s)
      ensures Sound() && St() == Traded(st, s, p, held, traded, total)
    {
      ghost var mem1 := OrderStore.SetQty(st.mem, cur, st.mem[cur].value.qty - traded);
      WriteTrade(cur, held, traded, st.mem, mem1);
      WriteTotal(WallOf(s), p, total, st.Levels(s));
      if s == Yes {
        TradedStore(st, Yes, p, held, traded, total, St());
      } else {
        TradedStore(st, No, p, held, traded, total, St());
      }
    }

    /** A filled order leaves its level, the index and the pool; the level's total has been settled. */
    method TakeOut(s: Side, p: Tick, cur: nat, ghost k: nat, ghost st: Store) returns (ghost link: Ptr)
      requires Sound() && st == St() && RemoveReady(st, s, p, k) && cur == st.Lists(s)[p][k]
      modifies this`bidLists, this`askLists, pool, pool.blocks, orders, orders.slots, WallOf(s)
      ensures Sound() && St() == Removed(st, s, p, k, link, st.Levels(s)[p].total)
    {
      var id := pool.blocks[cur].value.id;
      Unlink(WallOf(s), p, cur, st.mem, st.Levels(s));
      link := Drop(s, p, cur, id, st.Levels(s)[p].total, k, st);
    }

    method UnlinkWithQty(wall: array<PriceLevel>, p: Tick, cur: nat, total: nat,
                         ghost mem: Memory, ghost levels: seq<PriceLevel>)
      requires pool.Valid() && wall.Length == LEVELS && cur in pool.live && mem == pool.blocks[..] && levels == wall[..]
      requires mem[cur].Data? && Unlinkable(mem, mem[cur].value)
      requires mem[cur].value.prev.Ref? ==> mem[cur].value.prev.block in pool.live
      requires mem[cur].value.next.Ref? ==> mem[cur].value.next.block in pool.live
      modifies pool.blocks, wall
      ensures pool.Valid() && pool.blocks[..] == Unlinked(mem, mem[cur].value)
      ensures wall[..] == levels[p := WithTotal(LevelUnlinked(levels[p], mem[cur].value), total)]
    {
      Unlink(wall, p, cur, mem, levels);
      wall[p] := WithTotal(wall[p], total);
    }

    /** A cancelled order leaves; `total` is the level's new total. */
    method Withdraw(s: Side, p: Tick, cur: nat, total: nat, ghost k: nat, ghost st: Store) returns (ghost link: Ptr)
      requires Sound() && st == St() && RemoveReady(st, s, p, k) && cur == st.Lists(s)[p][k]
      modifies this`bidLists, this`askLists, pool, pool.blocks, orders, orders.slots, WallOf(s)
      ensures Sound() && St() == Removed(st, s, p, k, link, total)
    {
      var id := pool.blocks[cur].value.id;
      UnlinkWithQty(WallOf(s), p, cur, total, st.mem, st.Levels(s));
      link := Drop(s, p, cur, id, total, k, st);
    }

    ghost method CutList(s: Side, p: Tick, k: nat)
      requires |bidLists| == |askLists| == LEVELS && k < |(if s == Yes then bidLists else askLists)[p]|
      modifies this`bidLists, this`askLists
      ensures s == Yes ==> bidLists == old(bidLists)[p := Omit(old(bidLists)[p], k)] && askLists == old(askLists)
      ensures s == No ==> askLists == old(askLists)[p := Omit(old(askLists)[p], k)] && bidLists == old(bidLists)
    {
      if s == Yes {
        bidLists := bidLists[p := Omit(bidLists[p], k)];
      } else {
        askLists := askLists[p := Omit(askLists[p], k)];
      }
    }

    /** What is left of the held order is indexed and joins the back of its level. */
    method RestBehind(s: Side, p: Tick, b: nat, total: nat, ghost st: Store)
      requires Sound() && st == St() && RestReady(st, s, p, b)
      requires st.mem[b].value.id != RobinHood.EMPTY && |st.index| < INDEX_CAPACITY
      modifies this`bidLists, this`askLists, pool.blocks, orders, orders.slots, WallOf(s)
      ensures Sound() && St() == Rested(st, s, p, b, total)
    {
      var id := pool.blocks[b].value.id;
      var ok, _ := orders.Insert(id, b);
      AppendNode(WallOf(s), p, b, total, st.mem, st.Levels(s));
      if s == Yes {
        bidLists := bidLists[p := bidLists[p] + [b]];
        RestedStore(st, Yes, p, b, total, St());
      } else {
        askLists := askLists[p := askLists[p] + [b]];
        RestedStore(st, No, p, b, total, St());
      }
    }

    method AppendNode(wall: array<PriceLevel>, p: Tick, b: nat, total: nat, ghost mem: Memory, ghost levels: seq<PriceLevel>)
      requires pool.Valid() && wall.Length == LEVELS && b in pool.live && mem == pool.blocks[..] && levels == wall[..]
      requires mem[b].Data? && levels[p].tail != Ref(b)
      requires levels[p].tail.Ref? ==> levels[p].tail.block in pool.live && mem[levels[p].tail.block].Data?
      modifies pool.blocks, wall
      ensures pool.Valid() && (levels[p].tail.Ref? ==> levels[p].tail.block < |mem|)
      ensures pool.blocks[..] == Appended(mem, levels[p], b)
      ensures wall[..] == levels[p := WithTotal(LevelAppended(levels[p], b), total)]
    {
      var oldTail := wall[p].tail;
      wall[p] := PriceLevel(wall[p].head, Ref(b), wall[p].total);
      if oldTail == Null {
        wall[p] := PriceLevel(Ref(b), wall[p].tail, wall[p].total);
      } else {
        pool.Write(b, pool.blocks[b].value.(prev := oldTail));
        pool.Write(oldTail.block, pool.blocks[oldTail.block].value.(next := Ref(b)));
      }
      wall[p] := WithTotal(wall[p], total);
    }

    // ----- the matching loops

    /** One trade of the inner loop; `total` is the level's new total and `next` where the list goes on. */
    method ConsumeFront(s: Side, p: Tick, cur: nat, held: nat, traded: nat, total: nat, ghost st: Store)
      returns (gone: bool, next: Ptr, ghost link: Ptr)
      requires Sound() && st == St() && ConsumeReady(st, s, p, held, total)
      requires cur == st.Lists(s)[p][0] && traded == TradeQty(st, s, p, held) && st.mem[cur].value.prev == Null
      modifies this`bidLists, this`askLists, pool, pool.blocks, orders, orders.slots, WallOf(s)
      ensures Sound() && St() == Consumed(st, s, p, held, total, link)
      ensures gone <==> st.mem[cur].value.qty == traded
      ensures gone ==> next == St().Levels(s)[p].head
    {
      TradeFront(s, p, cur, held, traded, total, st);
      gone, next, link := pool.blocks[cur].value.qty == 0, pool.blocks[cur].value.next, Null;
      if gone {
        link := TakeOut(s, p, cur, 0, St());
      }
    }

    /** One turn of the inner loop. */
    method MatchOnce(s: Side, p: Tick, cur: nat, held: nat, ghost t: Taker, ghost done: seq<Fill>, ghost st: Store, ghost st0: Store)
      returns (f: Fill, gone: bool, next: Ptr)
      requires Sound() && st0 == St() && LevelMatching(st, st0, s, p, held, t, done)
      requires st0.Levels(s)[p].head == Ref(cur) && st0.mem[held].value.qty > 0
      modifies this`bidLists, this`askLists, pool, pool.blocks, orders, orders.slots, WallOf(s)
      ensures Sound() && LevelMatching(st, St(), s, p, held, t, done + [f])
      ensures gone ==> next == St().Levels(s)[p].head && |St().Lists(s)[p]| < |st0.Lists(s)[p]|
      ensures !gone ==> St().mem[held].value.qty == 0
    {
      HeadIsFront(st0, s, p, held);
      var c, h := pool.blocks[cur].value, pool.blocks[held].value;
      var traded := Min(c.qty, h.qty);
      var total := Moved(WallOf(s)[p].total, -(traded as int));
      FrontCanGo(st0, s, p, held, total);
      f := Fill(c.id, h.id, p, traded, h.ts);
      ghost var link;
      gone, next, link := ConsumeFront(s, p, cur, held, traded, total, st0);
      KeptSteps(st, st0, s, p, held, t, total, link, St());
      MatchingSteps(st, st0, s, p, held, t, done, St(), st0.Queue(s, p), st0.mem[held].value.qty);
      ConsumedShorter(st0, s, p, held, total, link);
    }

    /** The inner loop: the level is consumed from the front while the held order has quantity left. */
    method MatchAt(s: Side, p: Tick, held: nat, ghost t: Taker, ghost st: Store) returns (fills: seq<Fill>)
      requires Sound() && st == St() && st.Consistent({held}) && HoldsTaker(st, held, t)
      modifies this`bidLists, this`askLists, pool, pool.blocks, orders, orders.slots, WallOf(s)
      ensures Sound() && LevelMatched(st, St(), s, p, held, t, fills)
    {
      fills := [];
      var wall := WallOf(s);
      var cur := wall[p].head;
      MatchingStarts(st, s, p, held, t);
      while cur != Null && pool.blocks[held].value.qty > 0
        invariant Sound() && LevelMatching(st, St(), s, p, held, t, fills) && cur == wall[p].head
        decreases |St().Lists(s)[p]|
      {
        var f, gone, next := MatchOnce(s, p, cur.block, held, t, fills, st, St());
        fills := fills + [f];
        if !gone {
          break;
        }
        cur := next;
      }
      MatchingDone(st, St(), s, p, held, t, fills);
    }

    /** One turn of the outer loop. */
    method SweepOnce(side: Side, ptr: Tick, held: nat, ghost t: Taker, ghost from: Tick, ghost done: seq<Fill>,
                     ghost st: Store, ghost st0: Store) returns (fills: seq<Fill>)
      requires Sound() && st0 == St() && 1 <= t.limit <= 99 && t.side == side && Crosses(side, t.limit, ptr)
      requires WallMatching(st, st0, side.Other(), from, ptr, held, t, done) && st0.mem[held].value.qty != 0
      modifies this`bidLists, this`askLists, pool, pool.blocks, orders, orders.slots, WallOf(side.Other())
      ensures Sound() && (if side == Yes then ptr < 100 else ptr > 0)
      ensures WallMatching(st, St(), side.Other(), from, Onward(side, ptr), held, t, done + fills)
    {
      fills := MatchAt(side.Other(), ptr, held, t, st0);
      SweepSteps(st, st0, St(), side.Other(), from, ptr, held, t, done, fills);
    }

    /** The outer loop: levels are swept from the cached best of the other side to the limit. */
    method SweepWall(side: Side, price: Tick, held: nat, ghost t: Taker, ghost st: Store) returns (fills: seq<Fill>)
      requires Sound() && st == St() && st.Consistent({held}) && HoldsTaker(st, held, t)
      requires t.side == side && t.limit == price && 1 <= price <= 99
      modifies this`bidLists, this`askLists, pool, pool.blocks, orders, orders.slots, WallOf(side.Other())
      ensures Sound() && WallMatched(st, St(), side.Other(), if side == Yes then bestAsk else bestBid, held, t, fills)
    {
      var ptr: Tick := if side == Yes then bestAsk else bestBid;
      ghost var from := ptr;
      fills := [];
      SweepStarts(st, side.Other(), from, held, t);
      while Crosses(side, price, ptr) && pool.blocks[held].value.qty != 0
        invariant Sound() && WallMatching(st, St(), side.Other(), from, ptr, held, t, fills)
        decreases if side == Yes then LEVELS - ptr else ptr
      {
        var more := SweepOnce(side, ptr, held, t, from, fills, st, St());
        fills := fills + more;
        ptr := Onward(side, ptr);
      }
      SweepDone(st, St(), side.Other(), from, ptr, held, t, fills);
    }

    method RescanBids(ghost w: Wall)
      requires bids.Length == LEVELS && forall p: Tick :: bids[p].total == Depth(w[p])
      modifies this`bestBid
      ensures bestBid == RescanBid(w, old(bestBid))
    {
      while bids[bestBid].total == 0 && bestBid != 0
        invariant RescanBid(w, bestBid) == RescanBid(w, old(bestBid))
        decreases bestBid
      {
        bestBid := bestBid - 1;
      }
    }

    method RescanAsks(ghost w: Wall)
      requires asks.Length == LEVELS && forall p: Tick :: asks[p].total == Depth(w[p])
      modifies this`bestAsk
      ensures bestAsk == RescanAsk(w, old(bestAsk))
    {
      while asks[bestAsk].total == 0 && bestAsk != 100
        invariant RescanAsk(w, bestAsk) == RescanAsk(w, old(bestAsk))
        decreases LEVELS - bestAsk
      {
        bestAsk := bestAsk + 1;
      }
    }

    /** The cached bests move off empty levels. */
    method RescanBests(ghost b: Book)
      requires bids.Length == asks.Length == LEVELS && bestBid == b.bestBid && bestAsk == b.bestAsk
      requires forall p: Tick :: bids[p].total == Depth(b.bids[p]) && asks[p].total == Depth(b.asks[p])
      modifies this`bestBid, this`bestAsk
      ensures bestBid == Rescan(b).bestBid && bestAsk == Rescan(b).bestAsk
    {
      RescanBids(b.bids);
      RescanAsks(b.asks);
    }

    // ----- operations

    /** A block is taken for the incoming order and filled in; null exactly when the book is full. */
    method TakeBlock(client: nat, side: Side, price: Tick, qty: nat, ts: nat, ghost st: Store) returns (p: Ptr)
      requires Sound() && st == St() && st.Consistent({}) && nextOrderId < RobinHood.EMPTY
      modifies this`nextOrderId, pool, pool.blocks
      ensures Sound()
      ensures p == Null ==> St() == st && nextOrderId == old(nextOrderId) && |st.live| == CAPACITY
      ensures p.Ref? ==>
        && |st.live| < CAPACITY && p.block < |st.mem| && p.block !in st.live && nextOrderId == old(nextOrderId) + 1
        && St() == Taken(st, p.block, Order(old(nextOrderId), client, side, price, qty, ts, Null, Null))
    {
      pool.Partition();
      p := pool.Allocate();
      if p == Null {
        return;
      }
      pool.Write(p.block, Order(nextOrderId, client, side, price, qty, ts, Null, Null));
      nextOrderId := nextOrderId + 1;
    }

    /** What is left of the held order comes to rest, and may be a new best. */
    method RestHeld(side: Side, price: Tick, held: nat, total: nat, ghost st: Store)
      requires Sound() && st == St() && RestReady(st, side, price, held)
      requires st.mem[held].value.id != RobinHood.EMPTY && |st.index| < INDEX_CAPACITY
      modifies this`bidLists, this`askLists, this`bestBid, this`bestAsk, pool.blocks, orders, orders.slots, WallOf(side)
      ensures Sound() && St() == Rested(st, side, price, held, total)
      ensures side == Yes ==> bestAsk == old(bestAsk) && bestBid == if old(bestBid) < price then price else old(bestBid)
      ensures side == No ==> bestBid == old(bestBid) && bestAsk == if price < old(bestAsk) then price else old(bestAsk)
    {
      RestBehind(side, price, held, total, st);
      if side == Yes {
        bestBid := if bestBid < price then price else bestBid;
      } else {
        bestAsk := if price < bestAsk then price else bestAsk;
      }
    }

    /** A fully matched order gives its block back. */
    method ReleaseHeld(held: nat, ghost b: Book, ghost st: Store)
      requires Sound() && st == St() && st.Consistent({held}) && Mirrors(st, b)
      modifies pool, pool.blocks
      ensures Sound() && St().Consistent({}) && Mirrors(St(), b)
    {
      ghost var link := pool.freeHead;
      assert held in st.live;
      pool.Deallocate(held);
      ReleaseSteps(st, held, link, b);
      assert St() == Released(st, held, link);
    }

    /** The incoming order is matched against the other side. */
    method MatchHeld(side: Side, price: Tick, held: nat, ghost client: nat, ghost qty: nat, ghost t: Taker, ghost b: Book, ghost st: Store)
      returns (fills: seq<Fill>)
      requires Sound() && 1 <= price <= 99 && t.side == side && t.limit == price && t.id < WORD
      requires bestBid == b.bestBid && bestAsk == b.bestAsk
      requires st.Consistent({}) && Mirrors(st, b) && held < |st.mem| && held !in st.live && t.id !in st.index
      requires St() == Taken(st, held, Order(t.id, client, side, price, qty, t.ts, Null, Null))
      modifies this`bidLists, this`askLists, pool, pool.blocks, orders, orders.slots, bids, asks
      ensures Sound() && fills == Swept(b, t, qty).fills
      ensures Settleable(St(), b.With(side.Other(), Swept(b, t, qty).wall), held, t, client)
      ensures St().mem[held].value.qty == Swept(b, t, qty).qty
    {
      ghost var st1 := St();
      TakenSteps(st, held, t, client, qty, b);
      fills := SweepWall(side, price, held, t, st1);
      SweptMirrors(st1, St(), b, held, t, fills);
    }

    /** What is left rests, or the block goes back. */
    method SettleHeld(side: Side, price: Tick, held: nat, ghost c: Book, ghost t: Taker, ghost client: nat, ghost st: Store)
      returns (left: nat)
      requires Sound() && st == St() && Settleable(st, c, held, t, client) && t.side == side && t.limit == price
      requires t.id < RobinHood.EMPTY && bestBid == c.bestBid && bestAsk == c.bestAsk
      modifies this`bidLists, this`askLists, this`bestBid, this`bestAsk, pool, pool.blocks, orders, orders.slots, bids, asks
      ensures Sound() && left == st.mem[held].value.qty && St().Consistent({})
      ensures Mirrors(St(), WithRemainder(c, t, client, left))
      ensures bestBid == WithRemainder(c, t, client, left).bestBid && bestAsk == WithRemainder(c, t, client, left).bestAsk
    {
      left := pool.blocks[held].value.qty;
      if left > 0 {
        var total := Moved(WallOf(side)[price].total, left);
        RestSteps(st, c, held, t, client, total);
        pool.Partition();
        LiveCount(st, {held});
        RestHeld(side, price, held, total, st);
      } else {
        ReleaseHeld(held, c, st);
      }
    }

    /** The bests follow what the placement did. */
    method FollowPlaced(ghost b: Book, ghost t: Taker, ghost client: nat, ghost m: WallMatch, ghost d: Book)
      requires Sound() && St().Consistent({}) && Mirrors(St(), d) && nextOrderId == t.id + 1
      requires 1 <= t.limit <= 99 && d == WithRemainder(b.With(t.side.Other(), m.wall), t, client, m.qty)
      requires bestBid == d.bestBid && bestAsk == d.bestAsk
      modifies this`bestBid, this`bestAsk
      ensures Is(Settle(b, t, client, m))
    {
      TotalsAreDepths(St());
      RescanBests(d);
      AgreesSettled(St(), bestBid, bestAsk, nextOrderId, b, t, client, m, d);
    }

    /** The part of a placement after the incoming order has its block. */
    method PlaceHeld(side: Side, price: Tick, held: nat, ghost client: nat, ghost qty: nat, ghost t: Taker, ghost b: Book, ghost st: Store)
      returns (fills: seq<Fill>, left: nat)
      requires Sound() && 1 <= price <= 99 && t.side == side && t.limit == price && t.id < RobinHood.EMPTY
      requires bestBid == b.bestBid && bestAsk == b.bestAsk && nextOrderId == t.id + 1
      requires st.Consistent({}) && Mirrors(st, b) && held < |st.mem| && held !in st.live && t.id !in st.index
      requires St() == Taken(st, held, Order(t.id, client, side, price, qty, t.ts, Null, Null))
      modifies this`bidLists, this`askLists, this`bestBid, this`bestAsk, pool, pool.blocks, orders, orders.slots, bids, asks
      ensures fills == Swept(b, t, qty).fills && left == Swept(b, t, qty).qty
      ensures Is(Settle(b, t, client, Swept(b, t, qty)))
    {
      fills := MatchHeld(side, price, held, client, qty, t, b, st);
      ghost var m := Swept(b, t, qty);
      ghost var c := b.With(side.Other(), m.wall);
      left := SettleHeld(side, price, held, c, t, client, St());
      FollowPlaced(b, t, client, m, WithRemainder(c, t, client, left));
    }

    /** The accepted order in its block is matched, rests or is dropped, and the bests follow. */
    method PlaceTaken(client: nat, side: Side, price: Tick, qty: nat, ts: nat, held: nat, id: Word, ghost b: Book, ghost st: Store)
      returns (r: PlaceResult)
      requires Sound() && 1 <= price <= 99 && id == b.nextId && id < RobinHood.EMPTY
      requires bestBid == b.bestBid && bestAsk == b.bestAsk && nextOrderId == id + 1
      requires st.Consistent({}) && Mirrors(st, b) && held < |st.mem| && held !in st.live && id !in st.index
      requires St() == Taken(st, held, Order(id, client, side, price, qty, ts, Null, Null))
      modifies this`bidLists, this`askLists, this`bestBid, this`bestAsk, pool, pool.blocks, orders, orders.slots, bids, asks
      ensures Is(Accepted(b, Taker(id, side, price, ts), client, qty).0)
      ensures r == Accepted(b, Taker(id, side, price, ts), client, qty).1
    {
      var fills, left := PlaceHeld(side, price, held, client, qty, Taker(id, side, price, ts), b, st);
      r := PlaceResult(id, fills, left, true);
    }

    method PlaceIn(client: nat, side: Side, price: nat, qty: nat, ts: nat, ghost b: Book) returns (r: PlaceResult)
      requires Is(b) && nextOrderId < RobinHood.EMPTY && b.nextId !in Ids(b)
      modifies this`bidLists, this`askLists, this`bestBid, this`bestAsk, this`nextOrderId
      modifies pool, pool.blocks, orders, orders.slots, bids, asks
      ensures Is(Place(b, client, side, price, qty, ts).0) && r == Place(b, client, side, price, qty, ts).1
      ensures !r.accepted ==> Snapshot() == old(Snapshot())
    {
      r := REJECTED;
      if 1 <= price <= 99 && qty > 0 {
        ghost var st := St();
        CountIds(st, b);
        var id := nextOrderId;
        var p := TakeBlock(client, side, price, qty, ts, st);
        if p != Null {
          r := PlaceTaken(client, side, price, qty, ts, p.block, id, b, st);
        }
      }
    }

    /** The operation that led from b to c joins the history. */
    ghost method Log(op: Op, b: Book, c: Book)
      requires b == State(history) && c == Apply(b, op).0 && Is(c)
      modifies this`history
      ensures Valid() && history == old(history) + [op]
    {
      StateAppend(history, op);
      history := history + [op];
    }

    method PlaceAnswered(client: nat, side: Side, price: nat, qty: nat, ts: nat, ghost b: Book) returns (r: PlaceResult)
      requires Is(b) && nextOrderId < RobinHood.EMPTY && b.nextId !in Ids(b)
      modifies this`bidLists, this`askLists, this`bestBid, this`bestAsk, this`nextOrderId
      modifies pool, pool.blocks, orders, orders.slots, bids, asks
      ensures Is(Place(b, client, side, price, qty, ts).0) && r == Place(b, client, side, price, qty, ts).1
      ensures r.accepted <==> 1 <= price <= 99 && qty > 0 && |Ids(b)| < 2048
      ensures r.accepted ==> r.orderId == old(nextOrderId)
      ensures !r.accepted ==> r == PlaceResult(0, [], 0, false) && Snapshot() == old(Snapshot())
    {
      assert b.nextId == nextOrderId;
      BookRuns.PlaceAnswers(b, client, side, price, qty, ts);
      r := PlaceIn(client, side, price, qty, ts, b);
    }

    /** A limit order is matched and its remainder rests; a refused one changes nothing. */
    method PlaceLimit(client: nat, side: Side, price: nat, qty: nat, ts: nat) returns (r: PlaceResult)
      requires Valid() && nextOrderId < RobinHood.EMPTY
      modifies this, pool, pool.blocks, orders, orders.slots, bids, asks
      ensures Valid() && history == old(history) + [PlaceOp(client, side, price, qty, ts)]
      ensures Placed(r) == Apply(State(old(history)), PlaceOp(client, side, price, qty, ts)).1
      ensures r.accepted <==> 1 <= price <= 99 && qty > 0 && |Ids(State(old(history)))| < 2048
      ensures r.accepted ==> r.orderId == old(nextOrderId)
      ensures !r.accepted ==> r == PlaceResult(0, [], 0, false) && Snapshot() == old(Snapshot())
    {
      IdsBelowNext(history);
      ghost var b := State(history);
      r := PlaceAnswered(client, side, price, qty, ts, b);
      Log(PlaceOp(client, side, price, qty, ts), b, Place(b, client, side, price, qty, ts).0);
    }

    /** The order in block cur leaves its level; `total` is the level's new total. */
    method WithdrawFrom(s: Side, p: Tick, cur: nat, total: nat, ghost st: Store, ghost k: nat, ghost b: Book, ghost c: Book)
      requires Sound() && st == St() && SpotOf(st, b, s, p, k, c) && cur == st.Lists(s)[p][k] && Mirrors(st, b)
      requires total == Depth(st.Queue(s, p)[..k] + st.Queue(s, p)[k + 1..])
      modifies this`bidLists, this`askLists, pool, pool.blocks, orders, orders.slots, WallOf(s)
      ensures Sound() && St().Consistent({}) && Mirrors(St(), c)
    {
      ghost var link := Withdraw(s, p, cur, total, k, st);
      WithdrawSteps(st, b, s, p, k, link, total, c);
    }

    /** The cached bests catch up with the book c. */
    method FollowBests(ghost c: Book)
      requires Is(c)
      modifies this`bestBid, this`bestAsk
      ensures Is(Rescan(c))
    {
      TotalsAreDepths(St());
      RescanBests(c);
    }

    /** The order in block cur leaves the book, and the bests follow. */
    method CancelBlock(cur: nat, s: Side, p: Tick, total: nat, ghost b: Book, ghost st: Store, ghost k: nat, ghost c: Book)
      requires Is(b) && st == St() && SpotOf(st, b, s, p, k, c) && cur == st.Lists(s)[p][k]
      requires total == Depth(st.Queue(s, p)[..k] + st.Queue(s, p)[k + 1..])
      modifies this`bidLists, this`askLists, this`bestBid, this`bestAsk, pool, pool.blocks, orders, orders.slots, bids, asks
      ensures Is(Rescan(c))
    {
      WithdrawFrom(s, p, cur, total, st, k, b, c);
      FollowBests(c);
    }

    method TotalWithout(s: Side, p: Tick, qty: nat, ghost st: Store, ghost k: nat) returns (total: nat)
      requires bids.Length == asks.Length == LEVELS && st == St()
      requires CanRemove(st, {}, s, p, k) && qty == st.mem[st.Lists(s)[p][k]].value.qty
      ensures total == Depth(st.Queue(s, p)[..k] + st.Queue(s, p)[k + 1..])
    {
      total := Moved(WallOf(s)[p].total, -(qty as int));
      WithdrawTotal(st, s, p, k, qty, total);
    }

    method CancelSpot(cur: nat, s: Side, p: Tick, qty: nat, ghost b: Book, ghost st: Store, ghost k: nat, ghost c: Book)
      requires Is(b) && st == St() && SpotOf(st, b, s, p, k, c)
      requires cur == st.Lists(s)[p][k] && qty == st.mem[cur].value.qty
      modifies this`bidLists, this`askLists, this`bestBid, this`bestAsk, pool, pool.blocks, orders, orders.slots, bids, asks
      ensures Is(Rescan(c))
    {
      var total := TotalWithout(s, p, qty, st, k);
      CancelBlock(cur, s, p, total, b, st, k, c);
    }

    method CancelIn(id: Word, client: nat, ghost b: Book, ghost q: Quotes) returns (ok: bool)
      requires Is(b) && id != RobinHood.EMPTY && BookRefinement.Shows(b, q)
      modifies this`bidLists, this`askLists, this`bestBid, this`bestAsk, pool, pool.blocks, orders, orders.slots, bids, asks
      ensures Is(Cancel(b, id, client).0) && ok == Cancel(b, id, client).1
      ensures !ok ==> Snapshot() == old(Snapshot())
    {
      var slot := orders.Find(id);
      ok := false;
      if slot == None {
        NotOwned(St(), b, id, client);
      } else {
        var cur := slot.value;
        ghost var k, c := FoundAt(St(), b, q, id, client);
        var n := pool.blocks[cur].value;
        if n.client == client {
          CancelSpot(cur, n.side, n.price, n.qty, b, St(), k, c);
          ok := true;
        }
      }
    }

    /** A client's own order leaves the book; a refused cancellation changes nothing. */
    method CancelOrder(id: Word, client: nat) returns (ok: bool)
      requires Valid() && id != RobinHood.EMPTY
      modifies this, pool, pool.blocks, orders, orders.slots, bids, asks
      ensures Valid() && history == old(history) + [CancelOp(id, client)]
      ensures Cancelled(ok) == Apply(State(old(history)), CancelOp(id, client)).1
      ensures !ok ==> Snapshot() == old(Snapshot())
    {
      ghost var q := QuotesOf(history);
      ghost var b := State(history);
      ok := CancelIn(id, client, b, q);
      Log(CancelOp(id, client), b, Cancel(b, id, client).0);
    }

    /** The 32-bit depth of a level; 0 outside the price range. */
    method DepthAt(side: Side, price: nat) returns (depth: nat)
      requires Valid()
      ensures depth == if 1 <= price <= 99 then Depth(State(history).Side(side)[price]) else 0
    {
      if price < 1 || price > 99 {
        return 0;
      }
      assert St().LevelOk(side, price);
      SideMirrors(St(), State(history), side);
      depth := WallOf(side)[price].total;
    }

    /** As many pool blocks are live as orders rest, the index has room for all of them, and every
        live block holds an order with quantity left. */
    lemma PoolAndIndexAgree()
      requires Valid()
      ensures |pool.live| == |Ids(State(history))| == |orders.Contents()| <= 2048 && orders.capacity == 4096
      ensures orders.Contents().Keys == Ids(State(history))
      ensures forall b | b in pool.live :: b < pool.blocks.Length && pool.blocks[b].Data? && pool.blocks[b].value.qty > 0
    {
      CountIds(St(), State(history));
      LiveCount(St(), {});
      pool.Partition();
      var q := QuotesOf(history);
      forall b | b in pool.live
        ensures b < pool.blocks.Length && pool.blocks[b].Data? && pool.blocks[b].value.qty > 0
      {
        LiveIsPositive(St(), State(history), q, b);
      }
    }

    /** The engine has answered throughout as the price-time reference does if and only if every
        placement it accepted found no order inside its limit before the best it started from; its
        book was never crossed if and only if each of them found none or could be filled; its bests
        were always exact if and only if no best level was ever hidden. Exact bests make it fair, and
        fairness keeps it uncrossed. */
    lemma AnswersAsReference()
      requires Valid()
      ensures BookRuns.Prioritised(history) <==> BookRuns.AllFair(history)
      ensures BookCrossing.AllApart(history) <==> BookCrossing.AllGuarded(history)
      ensures BookRuns.AllExact(history) <==> BookRuns.AllVisible(history)
      ensures BookRuns.AllVisible(history) ==> BookRuns.AllFair(history)
      ensures BookRuns.AllFair(history) ==> BookCrossing.AllApart(history)
    {
      BookRuns.RunFairIff(history);
      BookCrossing.RunApartIff(history);
      BookRuns.RunExactIff(history);
      BookRuns.VisibleIsFair(history);
      BookCrossing.FairIsApart(history);
    }
  }
}
