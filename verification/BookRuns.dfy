/** Whole runs of the level book: when its cached bests are exact, and what follows then. */
module BookRuns {
  import opened Machine
  import opened PriceTime
  import opened PriceTimeRuns
  import opened LevelBook
  import opened BookRefinement

  const MAX_QTY: nat := 1_000_000   // the largest quantity the order handler lets through

  /** The best non-empty level of a wall, for takers on `side`. */
  ghost predicate Top(w: Wall, side: Side, p: Tick) {
    w[p] != [] && NothingBefore(w, side, p)
  }

  /** Neither best level sums to a multiple of 2^32, which a uint32_t total cannot tell from empty. */
  ghost predicate Visible(b: Book) {
    && (forall p: Tick | Top(b.asks, Yes, p) :: Sum(b.asks[p]) % WORD32 != 0)
    && (forall p: Tick | Top(b.bids, No, p) :: Sum(b.bids[p]) % WORD32 != 0)
  }

  /** The cached bests are the lowest non-empty ask, or 100, and the highest non-empty bid, or 0. */
  ghost predicate Exact(b: Book) {
    && Covered(b)
    && (b.bestAsk != 100 ==> b.asks[b.bestAsk] != [])
    && (b.bestBid != 0 ==> b.bids[b.bestBid] != [])
  }

  // ----- rescans

  lemma {:induction false} RescanBidExact(w: Wall, from: Tick)
    requires NothingBefore(w, No, from) && w[0] == []
    ensures var p := RescanBid(w, from);
      (NothingBefore(w, No, p) && (p != 0 ==> w[p] != []))
      <==> (forall p: Tick | Top(w, No, p) :: Sum(w[p]) % WORD32 != 0)
  {
    RescanBidDown(w, from);
    if Depth(w[from]) == 0 && from != 0 {
      if w[from] == [] {
        RescanBidExact(w, from - 1);
      } else {
        assert Top(w, No, from);
        RescanBidDown(w, from - 1);
        assert Better(No, from, RescanBid(w, from));
      }
    } else {
      forall p: Tick | Top(w, No, p)
        ensures p == from
      {
        assert !Better(No, p, from);
        assert from != 0 ==> w[from] != [];
      }
    }
  }

  lemma {:induction false} RescanAskExact(w: Wall, from: Tick)
    requires NothingBefore(w, Yes, from) && w[100] == []
    ensures var p := RescanAsk(w, from);
      (NothingBefore(w, Yes, p) && (p != 100 ==> w[p] != []))
      <==> (forall p: Tick | Top(w, Yes, p) :: Sum(w[p]) % WORD32 != 0)
    decreases LEVELS - from
  {
    RescanAskUp(w, from);
    if Depth(w[from]) == 0 && from != 100 {
      if w[from] == [] {
        RescanAskExact(w, from + 1);
      } else {
        assert Top(w, Yes, from);
        RescanAskUp(w, from + 1);
        assert Better(Yes, from, RescanAsk(w, from));
      }
    } else {
      forall p: Tick | Top(w, Yes, p)
        ensures p == from
      {
        assert !Better(Yes, p, from);
        assert from != 100 ==> w[from] != [];
      }
    }
  }

  lemma RescanExact(b: Book, q: Quotes)
    requires Shows(b, q) && Covered(b)
    ensures Exact(Rescan(b)) <==> Visible(Rescan(b))
  {
    RescanBidExact(b.bids, b.bestBid);
    RescanAskExact(b.asks, b.bestAsk);
  }

  // ----- one operation

  lemma {:induction false} SweepKeepsEmpty(w: Wall, t: Taker, ptr: Tick, qty: nat, p: Tick)
    requires 1 <= t.limit <= 99 && w[p] == []
    ensures Sweep(w, t, ptr, qty).wall[p] == []
    decreases if t.side == Yes then LEVELS - ptr else ptr
  {
    if Crosses(t.side, t.limit, ptr) && qty != 0 {
      var m := MatchLevel(w[ptr], t, ptr, qty);
      SweepKeepsEmpty(w[ptr := m.level], t, Onward(t.side, ptr), m.qty, p);
    }
  }

  lemma SettleCovered(b: Book, t: Taker, client: nat, qty: nat)
    requires Covered(b) && 1 <= t.limit <= 99
    ensures Covered(BeforeRescan(b, t, client, Swept(b, t, qty)))
  {
    var m := Swept(b, t, qty);
    var w := b.Side(t.side.Other());
    forall p | 0 <= p < LEVELS && w[p] == []
      ensures m.wall[p] == []
    {
      SweepKeepsEmpty(w, t, Start(b, t.side), qty, p);
    }
  }

  lemma PlaceExact(b: Book, q: Quotes, client: nat, side: Side, price: nat, qty: nat, ts: nat)
    requires Shows(b, q) && Covered(b) && 1 <= price <= 99
    ensures var t := Taker(b.nextId, side, price, ts);
      var c := Settle(b, t, client, Swept(b, t, qty));
      Exact(c) <==> Visible(c)
  {
    var t := Taker(b.nextId, side, price, ts);
    var m := Swept(b, t, qty);
    SettleCovered(b, t, client, qty);
    SettleIsRescan(b, t, client, m);
    var mid := SweepShows(true, b, q, t, qty);
    BeforeShows(b, mid, t, client, m);
    RescanExact(BeforeRescan(b, t, client, m), Settled(mid, t, client, m.qty));
  }

  lemma CancelExact(b: Book, q: Quotes, id: nat)
    requires Shows(b, q) && Covered(b) && id in q
    ensures var c := Rescan(Dropped(b, id));
      Exact(c) <==> Visible(c)
  {
    var d := Dropped(b, id);
    DropShows(b, q, id);
    assert Covered(d);
    RescanExact(d, q - {id});
  }

  lemma PlaceExactIff(b: Book, q: Quotes, client: nat, side: Side, price: nat, qty: nat, ts: nat)
    requires Shows(b, q) && Exact(b) && Visible(b)
    ensures var c := Place(b, client, side, price, qty, ts).0; Exact(c) <==> Visible(c)
  {
    if 1 <= price <= 99 && qty > 0 && |Ids(b)| < CAPACITY {
      PlaceExact(b, q, client, side, price, qty, ts);
    }
  }

  lemma CancelExactIff(b: Book, q: Quotes, id: nat, client: nat)
    requires Shows(b, q) && Exact(b) && Visible(b)
    ensures var c := Cancel(b, id, client).0; Exact(c) <==> Visible(c)
  {
    OwnsQuote(b.bids, Yes, q, id, client);
    OwnsQuote(b.asks, No, q, id, client);
    if id in q && q[id].client == client {
      CancelExact(b, q, id);
    }
  }

  lemma ApplyExactIff(b: Book, q: Quotes, op: Op)
    requires Shows(b, q) && Exact(b) && Visible(b)
    ensures Exact(Apply(b, op).0) <==> Visible(Apply(b, op).0)
  {
    match op
    case PlaceOp(client, side, price, qty, ts) => PlaceExactIff(b, q, client, side, price, qty, ts);
    case CancelOp(id, client) => CancelExactIff(b, q, id, client);
  }

  // ----- runs

  /** In every state of the run, the last one included. */
  ghost predicate AllVisible(ops: seq<Op>) {
    Visible(State(ops)) && (ops != [] ==> AllVisible(ops[..|ops| - 1]))
  }

  ghost predicate AllExact(ops: seq<Op>) {
    Exact(State(ops)) && (ops != [] ==> AllExact(ops[..|ops| - 1]))
  }

  /** The book shows exactly the quotes of this reference state. */
  ghost predicate Matches(b: Book, s: RefState) {
    Shows(b, s.quotes) && s.next == b.nextId
  }

  /** The states of a reference run are those the book shows, operation by operation. */
  ghost predicate Tracks(ops: seq<Op>, states: seq<RefState>) {
    && |states| == |ops| + 1 && Matches(State(ops), states[|ops|])
    && (ops != [] ==> Tracks(ops[..|ops| - 1], states[..|ops|]))
  }

  /** Every operation of the run is fair in the state that it meets. */
  ghost predicate AllFair(ops: seq<Op>) {
    ops != [] ==> AllFair(ops[..|ops| - 1]) && Fair(State(ops[..|ops| - 1]), ops[|ops| - 1])
  }

  lemma EmptyShows()
    ensures Shows(EmptyBook(), map[]) && Exact(EmptyBook()) && Visible(EmptyBook())
  {
  }

  /** Every run is a run of the reference, and with price-time priority if every operation is fair. */
  lemma {:induction false} RunRefines(fair: bool, ops: seq<Op>) returns (states: seq<RefState>)
    requires fair ==> AllFair(ops)
    ensures RefRun(fair, ops, Replies(ops), states) && Tracks(ops, states)
  {
    if ops == [] {
      EmptyShows();
      return [RefState(map[], 1)];
    }
    var n := |ops| - 1;
    var before := RunRefines(fair, ops[..n]);
    states := RunStep(fair, ops, before);
  }

  lemma StepMatches(fair: bool, b: Book, s: RefState, op: Op) returns (s': RefState)
    requires Matches(b, s) && (fair ==> Fair(b, op))
    ensures RefStep(fair, s, op, s', Apply(b, op).1) && Matches(Apply(b, op).0, s')
  {
    var q' := ApplyRefines(fair, b, s.quotes, op);
    s' := RefState(q', Apply(b, op).0.nextId);
  }

  lemma TracksStep(ops: seq<Op>, before: seq<RefState>, s: RefState)
    requires ops != [] && Tracks(ops[..|ops| - 1], before) && Matches(State(ops), s)
    ensures Tracks(ops, before + [s])
  {
    assert (before + [s])[..|ops|] == before;
  }

  lemma RunsOn(fair: bool, ops: seq<Op>, init: seq<Op>, op: Op, before: seq<RefState>, s: RefState)
    requires ops == init + [op] && RefRun(fair, init, Replies(init), before)
    requires RefStep(fair, before[|init|], op, s, Apply(State(init), op).1)
    ensures RefRun(fair, ops, Replies(ops), before + [s])
  {
    StateAppend(init, op);
    RunExtend(fair, init, Replies(init), before, op, Apply(State(init), op).1, s);
  }

  lemma {:induction false} RunStep(fair: bool, ops: seq<Op>, before: seq<RefState>) returns (states: seq<RefState>)
    requires ops != [] && (fair ==> Fair(State(ops[..|ops| - 1]), ops[|ops| - 1]))
    requires RefRun(fair, ops[..|ops| - 1], Replies(ops[..|ops| - 1]), before) && Tracks(ops[..|ops| - 1], before)
    ensures RefRun(fair, ops, Replies(ops), states) && Tracks(ops, states)
  {
    var init, op := ops[..|ops| - 1], ops[|ops| - 1];
    var s := StepMatches(fair, State(init), before[|init|], op);
    assert ops == init + [op];
    RunsOn(fair, ops, init, op, before, s);
    TracksStep(ops, before, s);
    states := before + [s];
  }

  // ----- exactly which runs have price-time priority

  lemma StepFair(b: Book, s: RefState, op: Op, s': RefState)
    requires Matches(b, s) && RefStep(true, s, op, s', Apply(b, op).1)
    ensures Fair(b, op)
  {
    ShowsIds(b, s.quotes);
    if op.PlaceOp? && Acceptable(s.quotes, op.price, op.qty) {
      PlaceFairIff(b, s.quotes, op.client, op.side, op.price, op.qty, op.ts);
    }
  }

  lemma {:induction false} PriorityIsFair(ops: seq<Op>, states: seq<RefState>)
    requires RefRun(true, ops, Replies(ops), states)
    ensures AllFair(ops)
  {
    if ops != [] {
      var n := |ops| - 1;
      RunPrefix(true, ops, Replies(ops), states, n);
      assert Replies(ops)[..n] == Replies(ops[..n]);
      PriorityIsFair(ops[..n], states[..n + 1]);
      var tracked := RunRefines(true, ops[..n]);
      RunDeterministic(ops[..n], Replies(ops[..n]), states[..n + 1], Replies(ops[..n]), tracked);
      assert states[n] == tracked[n];
      assert StepAt(true, ops, Replies(ops), states, n);
      StepFair(State(ops[..n]), states[n], ops[n], states[n + 1]);
    }
  }

  /** The run's answers are, one by one, those of the price-time reference. */
  ghost predicate Prioritised(ops: seq<Op>) {
    exists states :: RefRun(true, ops, Replies(ops), states)
  }

  /** A run answers as the price-time reference throughout if and only if every placement that is
      accepted finds no order inside its limit before the cached best it starts from. */
  lemma RunFairIff(ops: seq<Op>)
    ensures Prioritised(ops) <==> AllFair(ops)
  {
    if AllFair(ops) {
      var states := RunRefines(true, ops);
    }
    if Prioritised(ops) {
      var states :| RefRun(true, ops, Replies(ops), states);
      PriorityIsFair(ops, states);
    }
  }

  /** Over whole runs the cached bests are always exact if and only if no best level is ever hidden. */
  lemma {:induction false} RunExactIff(ops: seq<Op>)
    ensures AllExact(ops) <==> AllVisible(ops)
  {
    if ops == [] {
      EmptyShows();
    } else {
      var init := ops[..|ops| - 1];
      RunExactIff(init);
      if AllVisible(init) {
        var states := RunRefines(false, init);
        ApplyExactIff(State(init), states[|init|].quotes, ops[|ops| - 1]);
      }
    }
  }

  // ----- quantities within the handler's limit

  lemma {:induction false} SumBound(level: Level, max: nat)
    requires forall i | 0 <= i < |level| :: 0 < level[i].qty <= max
    ensures |level| <= Sum(level) <= |level| * max
  {
    if level != [] {
      SumBound(level[1..], max);
      assert |level| * max == max + |level[1..]| * max;
    }
  }

  lemma {:induction false} LevelIdsSize(level: Level, keys: set<nat>)
    requires InOrder(level) && forall i | 0 <= i < |level| :: level[i].id in keys
    ensures |level| <= |keys|
  {
    if level != [] {
      var n := |level| - 1;
      LevelIdsSize(level[..n], keys - {level[n].id});
    }
  }

  /** No level of a bounded book reaches 2^32. */
  lemma BoundedLevel(b: Book, s: RefState, side: Side, p: Tick)
    requires Matches(b, s) && Sane(s) && Within(s, MAX_QTY)
    ensures Depth(b.Side(side)[p]) == Sum(b.Side(side)[p])
    ensures b.Side(side)[p] != [] ==> Sum(b.Side(side)[p]) % WORD32 != 0
  {
    var w := b.Side(side);
    assert InOrder(w[p]);
    forall i | 0 <= i < |w[p]|
      ensures 0 < w[p][i].qty <= MAX_QTY && w[p][i].id in s.quotes.Keys
    {
      assert GoodEntry(w[p][i], b.nextId);
    }
    SumBound(w[p], MAX_QTY);
    LevelIdsSize(w[p], s.quotes.Keys);
    assert |w[p]| * MAX_QTY <= CAPACITY * MAX_QTY;
  }

  lemma BoundedVisible(b: Book, s: RefState)
    requires Matches(b, s) && Sane(s) && Within(s, MAX_QTY)
    ensures Visible(b)
    ensures forall side: Side, p: Tick :: Depth(b.Side(side)[p]) == Sum(b.Side(side)[p])
  {
    forall side: Side, p: Tick
      ensures Depth(b.Side(side)[p]) == Sum(b.Side(side)[p])
    {
      BoundedLevel(b, s, side, p);
    }
    forall p: Tick | Top(b.asks, Yes, p)
      ensures Sum(b.asks[p]) % WORD32 != 0
    {
      BoundedLevel(b, s, No, p);
    }
    forall p: Tick | Top(b.bids, No, p)
      ensures Sum(b.bids[p]) % WORD32 != 0
    {
      BoundedLevel(b, s, Yes, p);
    }
  }

  ghost predicate HandlerOps(ops: seq<Op>) {
    forall k | 0 <= k < |ops| && ops[k].PlaceOp? :: ops[k].qty <= 1_000_000
  }

  /** A run within the handler's limit never wraps a total, so nothing is ever hidden. */
  lemma {:induction false} HandlerRunVisible(ops: seq<Op>)
    requires HandlerOps(ops)
    ensures AllVisible(ops)
    ensures forall s: Side, p: Tick :: Depth(State(ops).Side(s)[p]) == Sum(State(ops).Side(s)[p])
  {
    var states := RunRefines(false, ops);
    RunSane(false, ops, Replies(ops), states, |ops|, MAX_QTY);
    BoundedVisible(State(ops), states[|ops|]);
    if ops != [] {
      HandlerRunVisible(ops[..|ops| - 1]);
    }
  }

  // ----- exact bests are fair

  /** As long as no best level is hidden, every operation is fair. */
  lemma {:induction false} VisibleIsFair(ops: seq<Op>)
    ensures AllVisible(ops) ==> AllFair(ops)
  {
    if ops != [] && AllVisible(ops) {
      VisibleIsFair(ops[..|ops| - 1]);
      RunExactIff(ops[..|ops| - 1]);
    }
  }

  // ----- conservation

  /** Conservation for every id over every run whatsoever. */
  lemma RunAccounts(ops: seq<Op>, id: nat) returns (states: seq<RefState>)
    ensures Tracks(ops, states)
    ensures Submitted(ops, Replies(ops), id)
         == Given(Replies(ops), id) + Withdrawn(ops, Replies(ops), states, id) + Resting(states[|ops|].quotes, id)
  {
    states := RunRefines(false, ops);
    RunConserves(false, ops, Replies(ops), states, id);
  }

  // ----- what is accepted, and under which id

  /** When an order is accepted and what a refusal answers, in the numbers of the source. */
  lemma PlaceAnswers(b: Book, client: nat, side: Side, price: nat, qty: nat, ts: nat)
    ensures var (c, r) := Place(b, client, side, price, qty, ts);
      && (r.accepted <==> 1 <= price <= 99 && qty > 0 && |Ids(b)| < 2048)
      && (r.accepted ==> r.orderId == b.nextId && c.nextId == b.nextId + 1)
      && (!r.accepted ==> r == PlaceResult(0, [], 0, false) && c == b)
  {
  }

  lemma {:induction false} ReplyAt(ops: seq<Op>, n: nat)
    requires n < |ops|
    ensures Replies(ops)[n] == Apply(State(ops[..n]), ops[n]).1 && State(ops[..n + 1]) == Apply(State(ops[..n]), ops[n]).0
    decreases |ops|
  {
    if n < |ops| - 1 {
      var init := ops[..|ops| - 1];
      ReplyAt(init, n);
      assert init[..n] == ops[..n] && init[..n + 1] == ops[..n + 1];
    } else {
      assert ops[..n + 1] == ops;
    }
  }

  ghost function NextAt(ops: seq<Op>, n: nat): nat
    requires n <= |ops|
  {
    State(ops[..n]).nextId
  }

  lemma {:induction false} NextStep(ops: seq<Op>, n: nat)
    requires n < |ops|
    ensures NextAt(ops, n) <= NextAt(ops, n + 1)
  {
    ReplyAt(ops, n);
    NextKept(State(ops[..n]), ops[n]);
  }

  lemma NextStart(ops: seq<Op>)
    ensures NextAt(ops, 0) == 1
  {
    assert ops[..0] == [];
  }

  /** Ids are handed out upward from 1. */
  lemma {:induction false} NextGrows(ops: seq<Op>, n: nat, m: nat)
    requires n <= m <= |ops|
    ensures NextAt(ops, n) <= NextAt(ops, m)
    decreases m
  {
    if n < m {
      NextGrows(ops, n, m - 1);
      NextStep(ops, m - 1);
    }
  }

  lemma NextKept(b: Book, op: Op)
    ensures b.nextId <= Apply(b, op).0.nextId
  {
    if op.PlaceOp? {
      PlaceAnswers(b, op.client, op.side, op.price, op.qty, op.ts);
    }
  }

  ghost predicate AcceptedAt(ops: seq<Op>, n: nat) {
    n < |ops| && ops[n].PlaceOp? && Replies(ops)[n].Placed? && Replies(ops)[n].result.accepted
  }

  lemma AcceptedId(ops: seq<Op>, n: nat)
    requires n < |ops| && ops[n].PlaceOp?
    ensures Replies(ops)[n].Placed?
    ensures var r := Replies(ops)[n].result;
      if r.accepted then r.orderId == NextAt(ops, n) && NextAt(ops, n + 1) == r.orderId + 1
      else r == PlaceResult(0, [], 0, false)
  {
    ReplyAt(ops, n);
    PlaceAnswers(State(ops[..n]), ops[n].client, ops[n].side, ops[n].price, ops[n].qty, ops[n].ts);
  }

  /** Over every run the ids of accepted orders are positive and strictly increase, so no two share
      one and no refused order answers with the id of an accepted one. */
  lemma RunIds(ops: seq<Op>, i: nat, j: nat)
    requires AcceptedAt(ops, i) && j < |ops| && ops[j].PlaceOp?
    ensures Replies(ops)[i].result.orderId >= 1 && Replies(ops)[j].Placed?
    ensures var r := Replies(ops)[j].result;
      if r.accepted then i < j ==> Replies(ops)[i].result.orderId < r.orderId
      else r.orderId == 0 && r.orderId != Replies(ops)[i].result.orderId
  {
    AcceptedId(ops, i);
    AcceptedId(ops, j);
    NextStart(ops);
    NextGrows(ops, 0, i);
    if i < j {
      NextGrows(ops, i + 1, j);
    }
  }
}
