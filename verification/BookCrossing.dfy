/** Exactly which placements, and which runs, leave the book uncrossed. */
module BookCrossing {
  import opened PriceTime
  import opened LevelBook
  import opened BookRefinement
  import opened BookRuns

  /** Every bid level is below every ask level. */
  ghost predicate Apart(b: Book) {
    forall p: Tick, p': Tick | b.bids[p] != [] && b.asks[p'] != [] :: p < p'
  }

  /** What a taker with this limit can get at `ptr` and behind it. */
  function Available(w: Wall, side: Side, limit: nat, ptr: Tick): nat
    requires 1 <= limit <= 99
    decreases if side == Yes then LEVELS - ptr else ptr
  {
    if !Crosses(side, limit, ptr) then 0 else Sum(w[ptr]) + Available(w, side, limit, Onward(side, ptr))
  }

  lemma {:induction false} AvailableBehind(w: Wall, side: Side, limit: nat, ptr: Tick, p: Tick, level: Level)
    requires 1 <= limit <= 99 && Better(side, p, ptr)
    ensures Available(w[p := level], side, limit, ptr) == Available(w, side, limit, ptr)
    decreases if side == Yes then LEVELS - ptr else ptr
  {
    if Crosses(side, limit, ptr) {
      AvailableBehind(w, side, limit, Onward(side, ptr), p, level);
    }
  }

  lemma {:induction false} LevelLeft(level: Level, t: Taker, price: nat, qty: nat)
    ensures var m := MatchLevel(level, t, price, qty);
      m.qty == (if qty <= Sum(level) then 0 else qty - Sum(level)) && (m.qty > 0 ==> m.level == [])
    decreases |level|
  {
    if level != [] && qty > 0 {
      LevelLeft(level[1..], t, price, qty - Min(level[0].qty, qty));
    }
  }

  /** The sweep leaves what is not available from where it starts. */
  lemma {:induction false} SweepLeft(w: Wall, t: Taker, ptr: Tick, qty: nat)
    requires 1 <= t.limit <= 99
    ensures var a := Available(w, t.side, t.limit, ptr);
      Sweep(w, t, ptr, qty).qty == if qty <= a then 0 else qty - a
    decreases if t.side == Yes then LEVELS - ptr else ptr
  {
    if Crosses(t.side, t.limit, ptr) && qty > 0 {
      var m := MatchLevel(w[ptr], t, ptr, qty);
      LevelLeft(w[ptr], t, ptr, qty);
      SweepUnfolds(w, t, ptr, qty, m);
      AvailableBehind(w, t.side, t.limit, Onward(t.side, ptr), ptr, m.level);
      SweepLeft(w[ptr := m.level], t, Onward(t.side, ptr), m.qty);
    }
  }

  /** Levels before the start are kept, and with a remainder the crossing ones behind it are empty. */
  lemma {:induction false} SweepLevels(w: Wall, t: Taker, ptr: Tick, qty: nat, p: Tick)
    requires 1 <= t.limit <= 99
    ensures var m := Sweep(w, t, ptr, qty);
      && (Better(t.side, p, ptr) ==> m.wall[p] == w[p])
      && (m.qty > 0 && Crosses(t.side, t.limit, p) && !Better(t.side, p, ptr) ==> m.wall[p] == [])
    decreases if t.side == Yes then LEVELS - ptr else ptr
  {
    if Crosses(t.side, t.limit, ptr) && qty > 0 {
      var m := MatchLevel(w[ptr], t, ptr, qty);
      LevelLeft(w[ptr], t, ptr, qty);
      SweepUnfolds(w, t, ptr, qty, m);
      SweepLevels(w[ptr := m.level], t, Onward(t.side, ptr), m.qty, p);
      if m.qty == 0 {
        assert Sweep(w[ptr := m.level], t, Onward(t.side, ptr), 0).qty == 0;
      }
    }
  }

  lemma SweepClears(w: Wall, t: Taker, ptr: Tick, qty: nat)
    requires 1 <= t.limit <= 99
    ensures var m := Sweep(w, t, ptr, qty);
      && (forall p: Tick | w[p] == [] :: m.wall[p] == [])
      && (m.qty > 0 ==> ((forall p: Tick | Crosses(t.side, t.limit, p) :: m.wall[p] == [])
                         <==> NonePassed(w, t.side, t.limit, ptr)))
  {
    var m := Sweep(w, t, ptr, qty);
    forall p: Tick
      ensures w[p] == [] ==> m.wall[p] == []
      ensures m.qty > 0 && Crosses(t.side, t.limit, p) ==> m.wall[p] == if Better(t.side, p, ptr) then w[p] else []
    {
      SweepLevels(w, t, ptr, qty, p);
      if w[p] == [] {
        SweepKeepsEmpty(w, t, ptr, qty, p);
      }
    }
  }

  lemma SettleWalls(b: Book, t: Taker, client: nat, m: WallMatch)
    requires 1 <= t.limit <= 99
    ensures var c := Settle(b, t, client, m); var w := b.Side(t.side);
      && c.Side(t.side.Other()) == m.wall
      && c.Side(t.side) == if m.qty > 0 then w[t.limit := w[t.limit] + [Entry(t.id, client, m.qty)]] else w
  {
  }

  /** A placement leaves an uncrossed book uncrossed if and only if it can be filled from where it
      starts, or skips no order. */
  lemma PlaceApartIff(b: Book, client: nat, side: Side, price: nat, qty: nat, ts: nat)
    requires Apart(b) && 1 <= price <= 99 && qty > 0 && |Ids(b)| < CAPACITY
    ensures Apart(Place(b, client, side, price, qty, ts).0) <==>
      qty <= Available(b.Side(side.Other()), side, price, Start(b, side)) || NoneSkipped(b, side, price)
  {
    var t := Taker(b.nextId, side, price, ts);
    var w := b.Side(side.Other());
    var m := Swept(b, t, qty);
    SweepLeft(w, t, Start(b, side), qty);
    SettleWalls(b, t, client, m);
    SweepClears(w, t, Start(b, side), qty);
    RestApartIff(b, Settle(b, t, client, m), m, side, price);
  }

  lemma RestApartIff(b: Book, c: Book, m: WallMatch, side: Side, price: Tick)
    requires Apart(b) && c.Side(side.Other()) == m.wall
    requires forall p: Tick | b.Side(side.Other())[p] == [] :: m.wall[p] == []
    requires forall p: Tick | p != price :: c.Side(side)[p] == b.Side(side)[p]
    requires m.qty == 0 ==> c.Side(side) == b.Side(side)
    requires m.qty > 0 ==> c.Side(side)[price] != []
    ensures Apart(c) <==> m.qty == 0 || forall p: Tick | Crosses(side, price, p) :: m.wall[p] == []
  {
    var own, other := c.Side(side), c.Side(side.Other());
    if m.qty > 0 && Apart(c) {
      forall p: Tick | Crosses(side, price, p)
        ensures m.wall[p] == []
      {
        assert own[price] != [];
      }
    }
  }

  lemma CancelApart(b: Book, id: nat, client: nat)
    requires Apart(b)
    ensures Apart(Cancel(b, id, client).0)
  {
    forall w: Wall, p: Tick | w[p] == []
      ensures WallWithout(w, id)[p] == []
    {
    }
  }

  /** An operation that would be accepted as a placement can be filled from where it starts, or
      skips no order. */
  ghost predicate Guarded(b: Book, op: Op) {
    op.PlaceOp? && 1 <= op.price <= 99 && op.qty > 0 && |Ids(b)| < CAPACITY ==>
      || op.qty <= Available(b.Side(op.side.Other()), op.side, op.price, Start(b, op.side))
      || NoneSkipped(b, op.side, op.price)
  }

  lemma StepApartIff(b: Book, op: Op)
    requires Apart(b)
    ensures Apart(Apply(b, op).0) <==> Guarded(b, op)
  {
    match op
    case PlaceOp(client, side, price, qty, ts) =>
      if 1 <= price <= 99 && qty > 0 && |Ids(b)| < CAPACITY {
        PlaceApartIff(b, client, side, price, qty, ts);
      }
    case CancelOp(id, client) => CancelApart(b, id, client);
  }

  ghost predicate AllApart(ops: seq<Op>) {
    Apart(State(ops)) && (ops != [] ==> AllApart(ops[..|ops| - 1]))
  }

  ghost predicate AllGuarded(ops: seq<Op>) {
    ops != [] ==> AllGuarded(ops[..|ops| - 1]) && Guarded(State(ops[..|ops| - 1]), ops[|ops| - 1])
  }

  /** A run never crosses the book if and only if every accepted placement is guarded. */
  lemma {:induction false} RunApartIff(ops: seq<Op>)
    ensures AllApart(ops) <==> AllGuarded(ops)
  {
    if ops != [] {
      var init := ops[..|ops| - 1];
      RunApartIff(init);
      if AllApart(init) {
        StepApartIff(State(init), ops[|ops| - 1]);
      }
    }
  }

  /** So a fair run never crosses the book. */
  lemma {:induction false} FairIsApart(ops: seq<Op>)
    ensures AllFair(ops) ==> AllGuarded(ops) && AllApart(ops)
  {
    if ops != [] && AllFair(ops) {
      FairIsApart(ops[..|ops| - 1]);
    }
    RunApartIff(ops);
  }
}
