/** The book as the engine of sim/domain/matching_engine.cpp keeps it: two walls of price levels,
    each level a FIFO queue, with cached best prices that rescan 32-bit level totals. */
module LevelBook {
  import opened Machine
  import opened PriceTime

  const LEVELS: nat := 101

  datatype Entry = Entry(id: nat, client: nat, qty: nat)
  type Level = seq<Entry>
  type Tick = p: nat | p < LEVELS
  type Wall = w: seq<Level> | |w| == LEVELS witness seq(LEVELS, _ => [])

  datatype Book = Book(bids: Wall, asks: Wall, bestBid: Tick, bestAsk: Tick, nextId: nat) {
    /** Where the orders of a side rest. */
    function Side(s: Side): Wall {
      if s == Yes then bids else asks
    }

    function With(s: Side, w: Wall): (b: Book)
      ensures b.Side(s) == w && b.Side(s.Other()) == Side(s.Other())
      ensures b.bestBid == bestBid && b.bestAsk == bestAsk && b.nextId == nextId
    {
      if s == Yes then Book(w, asks, bestBid, bestAsk, nextId) else Book(bids, w, bestBid, bestAsk, nextId)
    }

    /** The same book, with the next id to hand out. */
    function Numbered(next: nat): Book {
      Book(bids, asks, bestBid, bestAsk, next)
    }
  }

  function EmptyWall(): Wall {
    seq(LEVELS, _ => [])
  }

  function EmptyBook(): Book {
    Book(EmptyWall(), EmptyWall(), 0, 100, 1)
  }

  function Sum(level: Level): nat {
    if level == [] then 0 else level[0].qty + Sum(level[1..])
  }

  /** The uint32_t total of a level. */
  function Depth(level: Level): (r: nat)
    ensures r < WORD32
  {
    Sum(level) % WORD32
  }

  /** A sequence without its k-th element. */
  function Omit<T>(s: seq<T>, k: nat): (r: seq<T>)
    requires k < |s|
    ensures |r| == |s| - 1
    ensures forall i {:trigger r[i]} | 0 <= i < |r| :: r[i] == s[if i < k then i else i + 1]
  {
    s[..k] + s[k + 1..]
  }

  // ----- matching

  datatype LevelMatch = LevelMatch(level: Level, fills: seq<Fill>, qty: nat)

  /** The inner loop: the queue of one level is consumed from the front. */
  function MatchLevel(level: Level, t: Taker, price: nat, qty: nat): LevelMatch {
    if level == [] || qty == 0 then LevelMatch(level, [], qty)
    else
      var traded := Min(level[0].qty, qty);
      var fill := Fill(level[0].id, t.id, price, traded, t.ts);
      if traded == level[0].qty then
        var m := MatchLevel(level[1..], t, price, qty - traded);
        LevelMatch(m.level, [fill] + m.fills, m.qty)
      else
        LevelMatch([level[0].(qty := level[0].qty - traded)] + level[1..], [fill], qty - traded)
  }

  datatype WallMatch = WallMatch(wall: Wall, fills: seq<Fill>, qty: nat)

  /** The level that a taker on `side` visits after `ptr`. */
  function Onward(side: Side, ptr: Tick): Tick
    requires if side == Yes then ptr < 100 else ptr > 0
  {
    if side == Yes then ptr + 1 else ptr - 1
  }

  /** The outer loop: levels are visited from `ptr` away from the best price while they cross the limit. */
  function Sweep(w: Wall, t: Taker, ptr: Tick, qty: nat): WallMatch
    requires 1 <= t.limit <= 99
    decreases if t.side == Yes then LEVELS - ptr else ptr
  {
    if !Crosses(t.side, t.limit, ptr) || qty == 0 then WallMatch(w, [], qty)
    else
      var m := MatchLevel(w[ptr], t, ptr, qty);
      var r := Sweep(w[ptr := m.level], t, Onward(t.side, ptr), m.qty);
      WallMatch(r.wall, m.fills + r.fills, r.qty)
  }

  function RescanBid(w: Wall, from: Tick): Tick {
    if Depth(w[from]) == 0 && from != 0 then RescanBid(w, from - 1) else from
  }

  function RescanAsk(w: Wall, from: Tick): Tick
    decreases LEVELS - from
  {
    if Depth(w[from]) == 0 && from != 100 then RescanAsk(w, from + 1) else from
  }

  function Rescan(b: Book): Book {
    Book(b.bids, b.asks, RescanBid(b.bids, b.bestBid), RescanAsk(b.asks, b.bestAsk), b.nextId)
  }

  ghost function WallIds(w: Wall): set<nat> {
    set p, i | 0 <= p < LEVELS && 0 <= i < |w[p]| :: w[p][i].id
  }

  ghost function Ids(b: Book): set<nat> {
    WallIds(b.bids) + WallIds(b.asks)
  }

  /** The remainder joins the back of its level's queue. */
  function Rest(b: Book, side: Side, price: Tick, e: Entry): Book {
    var c := b.With(side, b.Side(side)[price := b.Side(side)[price] + [e]]);
    if side == Yes then Book(c.bids, c.asks, if b.bestBid < price then price else b.bestBid, c.bestAsk, c.nextId)
    else Book(c.bids, c.asks, c.bestBid, if price < b.bestAsk then price else b.bestAsk, c.nextId)
  }

  /** The cached best of the matching wall, where a taker on `side` starts. */
  function Start(b: Book, side: Side): Tick {
    if side == Yes then b.bestAsk else b.bestBid
  }

  /** The matching wall is swept from the cached best price. */
  function Swept(b: Book, t: Taker, qty: nat): WallMatch
    requires 1 <= t.limit <= 99
  {
    Sweep(b.Side(t.side.Other()), t, Start(b, t.side), qty)
  }

  /** What is left of the taker rests, and the cached bests are brought up to date. */
  function Settle(b: Book, t: Taker, client: nat, m: WallMatch): Book
    requires 1 <= t.limit <= 99
  {
    Close(b.With(t.side.Other(), m.wall).Numbered(t.id + 1), t.side, t.limit, Entry(t.id, client, m.qty))
  }

  function Close(b: Book, side: Side, price: Tick, e: Entry): Book {
    Rescan(if e.qty > 0 then Rest(b, side, price, e) else b)
  }

  /** What accepting an order leads to: it is matched, and its remainder settled. */
  function Accepted(b: Book, t: Taker, client: nat, qty: nat): (Book, PlaceResult)
    requires 1 <= t.limit <= 99
  {
    (Settle(b, t, client, Swept(b, t, qty)), PlaceResult(t.id, Swept(b, t, qty).fills, Swept(b, t, qty).qty, true))
  }

  ghost function Place(b: Book, client: nat, side: Side, price: nat, qty: nat, ts: nat): (r: (Book, PlaceResult)) {
    if price < 1 || price > 99 || qty == 0 || |Ids(b)| >= CAPACITY then (b, REJECTED)
    else Accepted(b, Taker(b.nextId, side, price, ts), client, qty)
  }

  // ----- cancelling

  function Without(level: Level, id: nat): Level {
    if level == [] then []
    else if level[0].id == id then level[1..]
    else [level[0]] + Without(level[1..], id)
  }

  function WallWithout(w: Wall, id: nat): Wall {
    seq(LEVELS, p requires 0 <= p < LEVELS => Without(w[p], id))
  }

  function Dropped(b: Book, id: nat): Book {
    Book(WallWithout(b.bids, id), WallWithout(b.asks, id), b.bestBid, b.bestAsk, b.nextId)
  }

  ghost predicate Owns(w: Wall, id: nat, client: nat) {
    exists p, i :: 0 <= p < LEVELS && 0 <= i < |w[p]| && w[p][i].id == id && w[p][i].client == client
  }

  ghost function Cancel(b: Book, id: nat, client: nat): (r: (Book, bool)) {
    if Owns(b.bids, id, client) || Owns(b.asks, id, client) then
      (Rescan(Dropped(b, id)), true)
    else (b, false)
  }

  // ----- runs

  ghost function Apply(b: Book, op: Op): (Book, Reply) {
    match op
    case PlaceOp(client, side, price, qty, ts) =>
      var (c, r) := Place(b, client, side, price, qty, ts); (c, Placed(r))
    case CancelOp(id, client) =>
      var (c, ok) := Cancel(b, id, client); (c, Cancelled(ok))
  }

  /** The book after a run from the empty engine. */
  ghost function State(ops: seq<Op>): Book {
    if ops == [] then EmptyBook() else Apply(State(ops[..|ops| - 1]), ops[|ops| - 1]).0
  }

  ghost function Replies(ops: seq<Op>): (r: seq<Reply>)
    ensures |r| == |ops|
  {
    if ops == [] then []
    else Replies(ops[..|ops| - 1]) + [Apply(State(ops[..|ops| - 1]), ops[|ops| - 1]).1]
  }

  lemma StateAppend(ops: seq<Op>, op: Op)
    ensures State(ops + [op]) == Apply(State(ops), op).0
    ensures Replies(ops + [op]) == Replies(ops) + [Apply(State(ops), op).1]
  {
    assert (ops + [op])[..|ops|] == ops;
  }
}
