/** The matching loops of place_limit on the engine's memory, tied to the level book. */
module StoreMatching {
  import opened Pools
  import opened PriceTime
  import opened LevelBook
  import opened OrderStore
  import opened StoreSteps

  // ----- one trade at the front of a level

  ghost function TradeQty(st: Store, s: Side, p: Tick, held: nat): nat
    requires st.Shaped() && st.Lists(s)[p] != [] && held < |st.mem| && st.mem[held].Data?
    requires st.Lists(s)[p][0] < |st.mem| && st.mem[st.Lists(s)[p][0]].Data?
  {
    Min(st.mem[st.Lists(s)[p][0]].value.qty, st.mem[held].value.qty)
  }

  /** The front order can trade with the held one and then, if nothing of it is left, be removed. */
  ghost predicate ConsumeReady(st: Store, s: Side, p: Tick, held: nat, total: nat) {
    && st.Shaped() && st.Lists(s)[p] != [] && held < |st.mem| && st.mem[held].Data?
    && st.Lists(s)[p][0] < |st.mem| && st.mem[st.Lists(s)[p][0]].Data?
    && TradeReady(st, s, p, held, TradeQty(st, s, p, held))
    && RemoveReady(Traded(st, s, p, held, TradeQty(st, s, p, held), total), s, p, 0)
  }

  /** `total` is what the level's total becomes. */
  ghost function Consumed(st: Store, s: Side, p: Tick, held: nat, total: nat, link: Ptr): Store
    requires ConsumeReady(st, s, p, held, total)
  {
    var st1 := Traded(st, s, p, held, TradeQty(st, s, p, held), total);
    if st.mem[st.Lists(s)[p][0]].value.qty == TradeQty(st, s, p, held) then Removed(st1, s, p, 0, link, total) else st1
  }

  /** The two orders differ in quantity at most. */
  ghost predicate SameButQty(m: Order, n: Order) {
    n == Order(m.id, m.client, m.side, m.price, n.qty, m.ts, m.prev, m.next)
  }

  /** Nothing of the held order has changed but its quantity. */
  ghost predicate HeldKept(st: Store, st': Store, held: nat) {
    && held < |st.mem| == |st'.mem| && st.mem[held].Data? && st'.mem[held].Data?
    && SameButQty(st.mem[held].value, st'.mem[held].value)
  }

  lemma CanConsume(st: Store, s: Side, p: Tick, held: nat, total: nat)
    requires st.Consistent({held}) && held < |st.mem| && st.mem[held].Data? && st.Lists(s)[p] != []
    requires st.Lists(s)[p][0] < |st.mem| && st.mem[st.Lists(s)[p][0]].Data?
    requires TradeQty(st, s, p, held) <= st.Queue(s, p)[0].qty && total == Depth(Reduced(st.Queue(s, p), TradeQty(st, s, p, held)))
    ensures ConsumeReady(st, s, p, held, total)
    ensures CanTrade(st, s, p, held, TradeQty(st, s, p, held))
    ensures CanRemove(Traded(st, s, p, held, TradeQty(st, s, p, held), total), {held}, s, p, 0)
  {
    FrontIsNode(st, {held}, s, p);
    var x := TradeQty(st, s, p, held);
    TradedConsistent(st, s, p, held, x, total);
    NodeInList(Traded(st, s, p, held, x, total), {held}, s, p, 0);
  }

  ghost function QueueAfter(q: Level, qty: nat): Level
    requires q != []
  {
    if q[0].qty <= qty then q[1..] else Reduced(q, qty)
  }

  lemma RemovedKeeps(st: Store, s: Side, p: Tick, held: nat, link: Ptr, total: nat)
    requires CanRemove(st, {held}, s, p, 0) && held < |st.mem| && st.mem[held].Data?
    ensures var st' := Removed(st, s, p, 0, link, total);
      held < |st'.mem| == |st.mem| && st'.mem[held] == st.mem[held] && st'.index.Keys <= st.index.Keys
  {
    assert st.Lists(s)[p][0] in st.Lists(s)[p];
    assert held !in st.Lists(s)[p];
    RemovedSame(st, {held}, s, p, 0, link, held, total);
  }

  lemma SameQueuesTrans(st: Store, st1: Store, st2: Store, s: Side, p: Tick)
    requires st.Shaped() && st1.Shaped() && st2.Shaped() && SameQueues(st, st1, s, p) && SameQueues(st1, st2, s, p)
    ensures SameQueues(st, st2, s, p)
  {
  }

  lemma HeldKeptTrans(st: Store, st0: Store, st': Store, held: nat)
    requires HeldKept(st, st0, held) && HeldKept(st0, st', held)
    ensures HeldKept(st, st', held)
  {
  }

  lemma SumTail(q: Level)
    requires q != [] && q[0].qty == 0
    ensures Depth(q[..0] + q[1..]) == Depth(q)
  {
    assert q[..0] + q[1..] == q[1..];
  }

  lemma FilledRemoved(st: Store, s: Side, p: Tick, held: nat, link: Ptr, total: nat)
    requires CanRemove(st, {held}, s, p, 0) && held < |st.mem| && st.mem[held].Data?
    requires st.mem[st.Lists(s)[p][0]].value.qty == 0 && total == st.Levels(s)[p].total
    ensures var st' := Removed(st, s, p, 0, link, total);
      && st'.Consistent({held}) && SameQueues(st, st', s, p) && st'.Queue(s, p) == st.Queue(s, p)[1..]
      && held < |st'.mem| == |st.mem| && st'.mem[held] == st.mem[held] && st'.index.Keys <= st.index.Keys
  {
    assert st.LevelOk(s, p);
    SumTail(st.Queue(s, p));
    RemovedConsistent(st, {held}, s, p, 0, link, total);
    RemovedKeeps(st, s, p, held, link, total);
    var q := st.Queue(s, p);
    assert q[..0] + q[1..] == q[1..];
  }

  /** One turn of the inner loop, in terms of queues. */
  lemma ConsumedConsistent(st: Store, s: Side, p: Tick, held: nat, total: nat, link: Ptr)
    requires st.Consistent({held}) && held < |st.mem| && st.mem[held].Data? && st.Lists(s)[p] != []
    requires st.Lists(s)[p][0] < |st.mem| && st.mem[st.Lists(s)[p][0]].Data?
    requires TradeQty(st, s, p, held) <= st.Queue(s, p)[0].qty && total == Depth(Reduced(st.Queue(s, p), TradeQty(st, s, p, held)))
    ensures ConsumeReady(st, s, p, held, total)
    ensures var st' := Consumed(st, s, p, held, total, link);
      && st'.Consistent({held}) && SameQueues(st, st', s, p) && HeldKept(st, st', held)
      && st'.mem[held].value.qty == st.mem[held].value.qty - TradeQty(st, s, p, held)
      && st'.Queue(s, p) == QueueAfter(st.Queue(s, p), st.mem[held].value.qty)
      && st'.index.Keys <= st.index.Keys
  {
    CanConsume(st, s, p, held, total);
    TradedKeeps(st, s, p, held, total);
    var st1 := Traded(st, s, p, held, TradeQty(st, s, p, held), total);
    if st.mem[st.Lists(s)[p][0]].value.qty == TradeQty(st, s, p, held) {
      FilledRemoved(st1, s, p, held, link, total);
      SameQueuesTrans(st, st1, Removed(st1, s, p, 0, link, total), s, p);
    }
  }

  lemma TradedKeeps(st: Store, s: Side, p: Tick, held: nat, total: nat)
    requires ConsumeReady(st, s, p, held, total) && CanTrade(st, s, p, held, TradeQty(st, s, p, held))
    requires TradeQty(st, s, p, held) <= st.Queue(s, p)[0].qty && total == Depth(Reduced(st.Queue(s, p), TradeQty(st, s, p, held)))
    ensures var x := TradeQty(st, s, p, held);
      var st1 := Traded(st, s, p, held, x, total);
      && st1.Consistent({held}) && SameQueues(st, st1, s, p) && HeldKept(st, st1, held)
      && st1.mem[held].value.qty == st.mem[held].value.qty - x && st1.index == st.index
      && st1.Levels(s)[p].total == total && st1.mem[st1.Lists(s)[p][0]].Data?
      && st1.mem[st1.Lists(s)[p][0]].value.qty == st.mem[st.Lists(s)[p][0]].value.qty - x
      && st.Queue(s, p)[0].qty == st.mem[st.Lists(s)[p][0]].value.qty
      && st1.Queue(s, p) == Reduced(st.Queue(s, p), x)
  {
    FrontIsNode(st, {held}, s, p);
    TradedConsistent(st, s, p, held, TradeQty(st, s, p, held), total);
  }

  // ----- the inner loop

  /** The held block is the order that the taker t describes. */
  ghost predicate HoldsTaker(st: Store, held: nat, t: Taker) {
    && held < |st.mem| && st.mem[held].Data?
    && st.mem[held].value.id == t.id && st.mem[held].value.ts == t.ts
  }

  /** The views agree, and nothing has changed but level (s, p) and the held order's quantity. */
  ghost predicate LevelKept(st: Store, st': Store, s: Side, p: Tick, held: nat, t: Taker) {
    && st.Shaped() && st'.Consistent({held}) && HoldsTaker(st, held, t) && HeldKept(st, st', held)
    && SameQueues(st, st', s, p) && st'.index.Keys <= st.index.Keys
  }

  /** Midway through a level: what is done and what is still to be done add up to the whole. */
  ghost predicate LevelMatching(st: Store, st': Store, s: Side, p: Tick, held: nat, t: Taker, fills: seq<Fill>) {
    && LevelKept(st, st', s, p, held, t)
    && Adds(MatchLevel(st.Queue(s, p), t, p, st.mem[held].value.qty), fills,
            MatchLevel(st'.Queue(s, p), t, p, st'.mem[held].value.qty))
  }

  ghost predicate Adds(m: LevelMatch, fills: seq<Fill>, rest: LevelMatch) {
    m == LevelMatch(rest.level, fills + rest.fills, rest.qty)
  }

  /** The level is done with. */
  ghost predicate LevelMatched(st: Store, st': Store, s: Side, p: Tick, held: nat, t: Taker, fills: seq<Fill>) {
    && LevelKept(st, st', s, p, held, t)
    && MatchLevel(st.Queue(s, p), t, p, st.mem[held].value.qty)
       == LevelMatch(st'.Queue(s, p), fills, st'.mem[held].value.qty)
  }

  lemma MatchingStarts(st: Store, s: Side, p: Tick, held: nat, t: Taker)
    requires st.Consistent({held}) && HoldsTaker(st, held, t)
    ensures LevelMatching(st, st, s, p, held, t, [])
  {
    var m := MatchLevel(st.Queue(s, p), t, p, st.mem[held].value.qty);
    assert [] + m.fills == m.fills;
  }

  lemma MatchLevelStep(q: Level, t: Taker, p: nat, qty: nat)
    requires q != [] && qty > 0
    ensures Adds(MatchLevel(q, t, p, qty), [Fill(q[0].id, t.id, p, Min(q[0].qty, qty), t.ts)],
                 MatchLevel(QueueAfter(q, qty), t, p, qty - Min(q[0].qty, qty)))
  {
    if q[0].qty > qty {
      assert QueueAfter(q, qty) == [q[0].(qty := q[0].qty - qty)] + q[1..];
      assert MatchLevel(QueueAfter(q, qty), t, p, 0).fills == [];
    }
  }

  lemma AddsMore(m: LevelMatch, fills: seq<Fill>, rest: LevelMatch, f: Fill, rest': LevelMatch)
    requires Adds(m, fills, rest) && Adds(rest, [f], rest')
    ensures Adds(m, fills + [f], rest')
  {
    assert fills + ([f] + rest'.fills) == fills + [f] + rest'.fills;
  }

  /** The matching of a whole level, one trade further. */
  lemma MatchLevelOn(m: LevelMatch, fills: seq<Fill>, q: Level, t: Taker, p: nat, qty: nat)
    requires q != [] && qty > 0 && Adds(m, fills, MatchLevel(q, t, p, qty))
    ensures Adds(m, fills + [Fill(q[0].id, t.id, p, Min(q[0].qty, qty), t.ts)],
                 MatchLevel(QueueAfter(q, qty), t, p, qty - Min(q[0].qty, qty)))
  {
    MatchLevelStep(q, t, p, qty);
    AddsMore(m, fills, MatchLevel(q, t, p, qty), Fill(q[0].id, t.id, p, Min(q[0].qty, qty), t.ts),
             MatchLevel(QueueAfter(q, qty), t, p, qty - Min(q[0].qty, qty)));
  }

  lemma KeptSteps(st: Store, st0: Store, s: Side, p: Tick, held: nat, t: Taker, total: nat, link: Ptr, st': Store)
    requires LevelKept(st, st0, s, p, held, t) && st0.Lists(s)[p] != []
    requires st0.Lists(s)[p][0] < |st0.mem| && st0.mem[st0.Lists(s)[p][0]].Data?
    requires st0.Queue(s, p)[0] == EntryAt(st0.mem, st0.Lists(s)[p][0])
    requires total == Depth(Reduced(st0.Queue(s, p), TradeQty(st0, s, p, held)))
    requires ConsumeReady(st0, s, p, held, total) && st' == Consumed(st0, s, p, held, total, link)
    ensures LevelKept(st, st', s, p, held, t)
    ensures var q, qty := st0.Queue(s, p), st0.mem[held].value.qty;
      st'.Queue(s, p) == QueueAfter(q, qty) && st'.mem[held].value.qty == qty - Min(q[0].qty, qty)
  {
    ConsumedConsistent(st0, s, p, held, total, link);
    SameQueuesTrans(st, st0, st', s, p);
    HeldKeptTrans(st, st0, st', held);
  }

  lemma MatchingSteps(st: Store, st0: Store, s: Side, p: Tick, held: nat, t: Taker, fills: seq<Fill>,
                      st': Store, q: Level, qty: nat)
    requires LevelMatching(st, st0, s, p, held, t, fills) && q == st0.Queue(s, p) && qty == st0.mem[held].value.qty
    requires q != [] && qty > 0 && LevelKept(st, st', s, p, held, t)
    requires st'.Queue(s, p) == QueueAfter(q, qty) && st'.mem[held].value.qty == qty - Min(q[0].qty, qty)
    ensures LevelMatching(st, st', s, p, held, t, fills + [Fill(q[0].id, t.id, p, Min(q[0].qty, qty), t.ts)])
  {
    MatchLevelOn(MatchLevel(st.Queue(s, p), t, p, st.mem[held].value.qty), fills, q, t, p, qty);
  }

  lemma MatchingDone(st: Store, st': Store, s: Side, p: Tick, held: nat, t: Taker, fills: seq<Fill>)
    requires LevelMatching(st, st', s, p, held, t, fills)
    requires st'.Levels(s)[p].head == Null || st'.mem[held].value.qty == 0
    ensures LevelMatched(st, st', s, p, held, t, fills)
  {
    assert st'.LevelOk(s, p);
    assert fills + [] == fills;
  }

  // ----- the outer loop

  ghost predicate SameSide(st: Store, st': Store, s: Side)
    requires st.Shaped() && st'.Shaped()
  {
    forall p: Tick :: st'.Queue(s, p) == st.Queue(s, p)
  }

  /** Midway through the sweep of side s: done so far plus still to do is the whole sweep. */
  ghost predicate WallMatching(st: Store, st': Store, s: Side, from: Tick, ptr: Tick, held: nat, t: Taker, fills: seq<Fill>)
    requires 1 <= t.limit <= 99
  {
    && st.Shaped() && st'.Consistent({held}) && HoldsTaker(st, held, t) && HeldKept(st, st', held)
    && SameSide(st, st', s.Other()) && st'.index.Keys <= st.index.Keys
    && SweepAdds(Sweep(st.Wall(s), t, from, st.mem[held].value.qty), fills,
                 Sweep(st'.Wall(s), t, ptr, st'.mem[held].value.qty))
  }

  ghost predicate SweepAdds(m: WallMatch, fills: seq<Fill>, rest: WallMatch) {
    m == WallMatch(rest.wall, fills + rest.fills, rest.qty)
  }

  /** The sweep is done. */
  ghost predicate WallMatched(st: Store, st': Store, s: Side, from: Tick, held: nat, t: Taker, fills: seq<Fill>)
    requires 1 <= t.limit <= 99
  {
    && st.Shaped() && st'.Consistent({held}) && HoldsTaker(st, held, t) && HeldKept(st, st', held)
    && SameSide(st, st', s.Other()) && st'.index.Keys <= st.index.Keys
    && Sweep(st.Wall(s), t, from, st.mem[held].value.qty) == WallMatch(st'.Wall(s), fills, st'.mem[held].value.qty)
  }

  lemma SweepStarts(st: Store, s: Side, from: Tick, held: nat, t: Taker)
    requires st.Consistent({held}) && HoldsTaker(st, held, t) && 1 <= t.limit <= 99
    ensures WallMatching(st, st, s, from, from, held, t, [])
  {
    var m := Sweep(st.Wall(s), t, from, st.mem[held].value.qty);
    assert [] + m.fills == m.fills;
  }

  lemma WallUpdated(st: Store, st': Store, s: Side, p: Tick)
    requires st.Shaped() && st'.Shaped() && SameQueues(st, st', s, p)
    ensures st'.Wall(s) == st.Wall(s)[p := st'.Queue(s, p)] && SameSide(st, st', s.Other())
  {
    forall r: Tick
      ensures st'.Wall(s)[r] == st.Wall(s)[p := st'.Queue(s, p)][r]
    {
    }
  }

  lemma SweepStep(w: Wall, t: Taker, ptr: Tick, qty: nat)
    requires 1 <= t.limit <= 99 && Crosses(t.side, t.limit, ptr) && qty != 0
    ensures if t.side == Yes then ptr < 100 else ptr > 0
    ensures var m := MatchLevel(w[ptr], t, ptr, qty);
      SweepAdds(Sweep(w, t, ptr, qty), m.fills, Sweep(w[ptr := m.level], t, Onward(t.side, ptr), m.qty))
  {
  }

  lemma SweepAddsMore(m: WallMatch, fills: seq<Fill>, rest: WallMatch, more: seq<Fill>, rest': WallMatch)
    requires SweepAdds(m, fills, rest) && SweepAdds(rest, more, rest')
    ensures SweepAdds(m, fills + more, rest')
  {
    assert fills + (more + rest'.fills) == fills + more + rest'.fills;
  }

  /** One level further. */
  lemma SweepSteps(st: Store, st0: Store, st': Store, s: Side, from: Tick, ptr: Tick, held: nat, t: Taker,
                   fills: seq<Fill>, more: seq<Fill>)
    requires 1 <= t.limit <= 99 && s == t.side.Other() && Crosses(t.side, t.limit, ptr)
    requires WallMatching(st, st0, s, from, ptr, held, t, fills) && st0.mem[held].value.qty != 0
    requires LevelMatched(st0, st', s, ptr, held, t, more)
    ensures if t.side == Yes then ptr < 100 else ptr > 0
    ensures WallMatching(st, st', s, from, Onward(t.side, ptr), held, t, fills + more)
  {
    var q0 := st0.mem[held].value.qty;
    SweepStep(st0.Wall(s), t, ptr, q0);
    WallUpdated(st0, st', s, ptr);
    HeldKeptTrans(st, st0, st', held);
    var m := MatchLevel(st0.Wall(s)[ptr], t, ptr, q0);
    assert m == LevelMatch(st'.Queue(s, ptr), more, st'.mem[held].value.qty);
    SweepAddsMore(Sweep(st.Wall(s), t, from, st.mem[held].value.qty), fills, Sweep(st0.Wall(s), t, ptr, q0), more,
                  Sweep(st'.Wall(s), t, Onward(t.side, ptr), st'.mem[held].value.qty));
  }

  lemma SweepDone(st: Store, st': Store, s: Side, from: Tick, ptr: Tick, held: nat, t: Taker, fills: seq<Fill>)
    requires 1 <= t.limit <= 99 && WallMatching(st, st', s, from, ptr, held, t, fills)
    requires !Crosses(t.side, t.limit, ptr) || st'.mem[held].value.qty == 0
    ensures WallMatched(st, st', s, from, held, t, fills)
  {
    assert fills + [] == fills;
  }
}
