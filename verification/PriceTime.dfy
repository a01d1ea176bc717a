/** The reference order book: a finite map from order id to quote, and trades that always take
    the best-priced, earliest quote. sim/domain/matching_engine.cpp promises this behaviour. */
module PriceTime {

  const CAPACITY: nat := 2048   // orders the engine's pool can hold

  datatype Side = Yes | No {
    function Other(): Side {
      if this == Yes then No else Yes
    }
  }

  datatype Fill = Fill(maker: nat, taker: nat, price: nat, qty: nat, ts: nat)

  datatype PlaceResult = PlaceResult(orderId: nat, fills: seq<Fill>, resting: nat, accepted: bool)

  const REJECTED := PlaceResult(0, [], 0, false)

  datatype Quote = Quote(side: Side, price: nat, client: nat, qty: nat)

  type Quotes = map<nat, Quote>

  function Min(a: nat, b: nat): nat {
    if a < b then a else b
  }

  /** A taker on `side` with this limit accepts this price. YES buys from the asks, NO sells to the bids. */
  predicate Crosses(side: Side, limit: nat, price: nat) {
    if side == Yes then price <= limit else price >= limit
  }

  /** For a taker on `side`, price p is strictly better than price p'. */
  predicate Better(side: Side, p: nat, p': nat) {
    if side == Yes then p < p' else p > p'
  }

  /** Price first, then time, which is the order of ids. */
  predicate Precedes(side: Side, p: nat, id: nat, p': nat, id': nat) {
    Better(side, p, p') || (p == p' && id < id')
  }

  ghost predicate Candidate(q: Quotes, side: Side, limit: nat, id: nat) {
    id in q && q[id].side == side.Other() && Crosses(side, limit, q[id].price)
  }

  ghost predicate IsBest(q: Quotes, side: Side, limit: nat, id: nat) {
    && Candidate(q, side, limit, id)
    && forall x | Candidate(q, side, limit, x) && x != id :: Precedes(side, q[id].price, id, q[x].price, x)
  }

  ghost predicate NoCandidate(q: Quotes, side: Side, limit: nat) {
    forall x | x in q :: !Candidate(q, side, limit, x)
  }

  ghost function Take(q: Quotes, id: nat, n: nat): Quotes
    requires id in q && n <= q[id].qty
  {
    if n == q[id].qty then q - {id} else q[id := q[id].(qty := q[id].qty - n)]
  }

  /** An incoming order, as the matcher sees it. */
  datatype Taker = Taker(id: nat, side: Side, limit: nat, ts: nat)

  /** `f` is the next trade of t in book q. With `fair` the maker is the best candidate of all,
      without it some candidate; what holds without `fair` holds even if priority were lost. */
  ghost predicate NextFill(fair: bool, q: Quotes, t: Taker, qty: nat, f: Fill) {
    && qty > 0 && Candidate(q, t.side, t.limit, f.maker)
    && (fair ==> IsBest(q, t.side, t.limit, f.maker))
    && f == Fill(f.maker, t.id, q[f.maker].price, Min(q[f.maker].qty, qty), t.ts)
  }

  /** `fills` is a sequence of such trades; it leads from q to q' and leaves `left`. */
  ghost predicate Trades(fair: bool, q: Quotes, t: Taker, qty: nat, fills: seq<Fill>, q': Quotes, left: nat)
    decreases |fills|
  {
    if fills == [] then q' == q && left == qty
    else
      && NextFill(fair, q, t, qty, fills[0])
      && Trades(fair, Take(q, fills[0].maker, fills[0].qty), t, qty - fills[0].qty, fills[1..], q', left)
  }

  /** Trading goes on until the order is filled or nothing crosses it. */
  ghost predicate Matched(fair: bool, q: Quotes, t: Taker, qty: nat, fills: seq<Fill>, q': Quotes, left: nat) {
    Trades(fair, q, t, qty, fills, q', left) && (fair ==> left == 0 || NoCandidate(q', t.side, t.limit))
  }

  ghost predicate Acceptable(q: Quotes, price: nat, qty: nat) {
    1 <= price <= 99 && qty > 0 && |q| < CAPACITY
  }

  /** What placing a limit order must do. */
  ghost predicate Places(fair: bool, q: Quotes, next: nat, client: nat, side: Side, price: nat, qty: nat, ts: nat,
                         q': Quotes, next': nat, r: PlaceResult)
  {
    if !Acceptable(q, price, qty) then q' == q && next' == next && r == REJECTED
    else
      && next' == next + 1 && r.accepted && r.orderId == next
      && Matched(fair, q, Taker(next, side, price, ts), qty, r.fills, q' - {next}, r.resting)
      && q' == (if r.resting > 0 then (q' - {next})[next := Quote(side, price, client, r.resting)] else q' - {next})
  }

  /** What cancelling an order must do. */
  ghost predicate Cancels(q: Quotes, id: nat, client: nat, q': Quotes, ok: bool) {
    && (ok <==> id in q && q[id].client == client)
    && q' == if ok then q - {id} else q
  }

  // ----- runs

  datatype Op =
    | PlaceOp(client: nat, side: Side, price: nat, qty: nat, ts: nat)
    | CancelOp(id: nat, client: nat)

  datatype Reply = Placed(result: PlaceResult) | Cancelled(ok: bool)

  datatype RefState = RefState(quotes: Quotes, next: nat)

  ghost predicate RefStep(fair: bool, s: RefState, op: Op, s': RefState, reply: Reply) {
    match op
    case PlaceOp(client, side, price, qty, ts) =>
      reply.Placed? && Places(fair, s.quotes, s.next, client, side, price, qty, ts, s'.quotes, s'.next, reply.result)
    case CancelOp(id, client) =>
      reply.Cancelled? && Cancels(s.quotes, id, client, s'.quotes, reply.ok) && s'.next == s.next
  }

  ghost predicate StepAt(fair: bool, ops: seq<Op>, replies: seq<Reply>, states: seq<RefState>, n: nat)
    requires |replies| == |ops| == |states| - 1 && n < |ops|
  {
    RefStep(fair, states[n], ops[n], states[n + 1], replies[n])
  }

  /** A run of the reference from the empty book: the states passed and the answers given. */
  ghost predicate RefRun(fair: bool, ops: seq<Op>, replies: seq<Reply>, states: seq<RefState>) {
    && |replies| == |ops| && |states| == |ops| + 1 && states[0] == RefState(map[], 1)
    && forall n | 0 <= n < |ops| :: StepAt(fair, ops, replies, states, n)
  }

  // ----- the reference determines every answer

  lemma {:induction false} TradesDeterministic(q: Quotes, t: Taker, qty: nat,
      fills: seq<Fill>, q1: Quotes, left1: nat, fills': seq<Fill>, q2: Quotes, left2: nat)
    requires Matched(true, q, t, qty, fills, q1, left1) && Matched(true, q, t, qty, fills', q2, left2)
    ensures fills == fills' && q1 == q2 && left1 == left2
    decreases |fills|
  {
    NoneOrNext(q, t, qty, fills, q1, left1);
    NoneOrNext(q, t, qty, fills', q2, left2);
    if fills != [] {
      assert fills[0] == fills'[0];
      TradesDeterministic(Take(q, fills[0].maker, fills[0].qty), t, qty - fills[0].qty,
                          fills[1..], q1, left1, fills'[1..], q2, left2);
      assert fills == [fills[0]] + fills[1..] && fills' == [fills'[0]] + fills'[1..];
    }
  }

  /** Matching stops exactly when the order is used up or nothing crosses it. */
  lemma NoneOrNext(q: Quotes, t: Taker, qty: nat, fills: seq<Fill>, q': Quotes, left: nat)
    requires Matched(true, q, t, qty, fills, q', left)
    ensures fills == [] <==> qty == 0 || NoCandidate(q, t.side, t.limit)
    ensures fills != [] ==> Candidate(q, t.side, t.limit, fills[0].maker)
  {
  }

  lemma PlacesDeterministic(q: Quotes, next: nat, client: nat, side: Side, price: nat, qty: nat, ts: nat,
      q1: Quotes, next1: nat, r1: PlaceResult, q2: Quotes, next2: nat, r2: PlaceResult)
    requires Places(true, q, next, client, side, price, qty, ts, q1, next1, r1)
    requires Places(true, q, next, client, side, price, qty, ts, q2, next2, r2)
    ensures q1 == q2 && next1 == next2 && r1 == r2
  {
    if Acceptable(q, price, qty) {
      TradesDeterministic(q, Taker(next, side, price, ts), qty,
                          r1.fills, q1 - {next}, r1.resting, r2.fills, q2 - {next}, r2.resting);
    }
  }

  lemma {:induction false} TradesConcat(fair: bool, q: Quotes, t: Taker, qty: nat, fills: seq<Fill>, mid: Quotes, some: nat,
                                        more: seq<Fill>, q': Quotes, left: nat)
    requires Trades(fair, q, t, qty, fills, mid, some) && Trades(fair, mid, t, some, more, q', left)
    ensures Trades(fair, q, t, qty, fills + more, q', left)
    decreases |fills|
  {
    if fills == [] {
      assert fills + more == more;
    } else {
      TradesConcat(fair, Take(q, fills[0].maker, fills[0].qty), t, qty - fills[0].qty, fills[1..], mid, some, more, q', left);
      assert (fills + more)[1..] == fills[1..] + more;
    }
  }

  // ----- what the fills of one placement look like

  function FilledQty(fills: seq<Fill>): nat {
    if fills == [] then 0 else fills[0].qty + FilledQty(fills[1..])
  }

  /** What an order id gave away in these fills, as maker or as taker. */
  function GivenBy(fills: seq<Fill>, id: nat): nat {
    if fills == [] then 0
    else
      (if fills[0].maker == id then fills[0].qty else 0)
      + (if fills[0].taker == id then fills[0].qty else 0)
      + GivenBy(fills[1..], id)
  }

  ghost function Resting(q: Quotes, id: nat): nat {
    if id in q then q[id].qty else 0
  }

  /** Fills stay inside the limit, at the maker's own price, and every maker but the last is gone. */
  lemma {:induction false} TradesAreQuotes(fair: bool, q: Quotes, t: Taker, qty: nat, fills: seq<Fill>, q': Quotes, left: nat, i: nat)
    requires Trades(fair, q, t, qty, fills, q', left) && i < |fills|
    ensures Candidate(q, t.side, t.limit, fills[i].maker) && fills[i].price == q[fills[i].maker].price
    ensures fills[i].taker == t.id && fills[i].ts == t.ts
    ensures fills[i].maker in q' ==> i == |fills| - 1 && left == 0
    decreases |fills|
  {
    var m := fills[0].maker;
    var rest := Take(q, m, fills[0].qty);
    if i > 0 {
      TradesAreQuotes(fair, rest, t, qty - fills[0].qty, fills[1..], q', left, i - 1);
    } else {
      if fills[1..] != [] {
        assert NextFill(fair, rest, t, qty - fills[0].qty, fills[1..][0]);
      }
      TradesShrink(fair, rest, t, qty - fills[0].qty, fills[1..], q', left, m);
    }
  }

  /** Trading neither adds quotes nor changes anything but quantities, and those only of candidates. */
  lemma {:induction false} TradesShrink(fair: bool, q: Quotes, t: Taker, qty: nat, fills: seq<Fill>, q': Quotes, left: nat, id: nat)
    requires Trades(fair, q, t, qty, fills, q', left)
    ensures id in q' ==> id in q && q'[id] == q[id].(qty := q'[id].qty) && q'[id].qty <= q[id].qty
    ensures id in q && !Candidate(q, t.side, t.limit, id) ==> id in q' && q'[id] == q[id]
    ensures left <= qty
    decreases |fills|
  {
    if fills != [] {
      TradesShrink(fair, Take(q, fills[0].maker, fills[0].qty), t, qty - fills[0].qty, fills[1..], q', left, id);
    }
  }

  /** Best price first, then strictly increasing maker id. */
  lemma {:induction false} TradesSorted(q: Quotes, t: Taker, qty: nat, fills: seq<Fill>, q': Quotes, left: nat, i: nat, j: nat)
    requires Trades(true, q, t, qty, fills, q', left) && i < j < |fills|
    ensures Precedes(t.side, fills[i].price, fills[i].maker, fills[j].price, fills[j].maker)
    decreases |fills|
  {
    var m := fills[0].maker;
    var rest := Take(q, m, fills[0].qty);
    if i > 0 {
      TradesSorted(rest, t, qty - fills[0].qty, fills[1..], q', left, i - 1, j - 1);
    } else {
      TradesAreQuotes(true, rest, t, qty - fills[0].qty, fills[1..], q', left, j - 1);
      assert fills[1..][j - 1] == fills[j];
      assert NextFill(true, rest, t, qty - fills[0].qty, fills[1..][0]);
      assert qty > fills[0].qty;
      assert Candidate(q, t.side, t.limit, fills[j].maker) && fills[j].maker != m;
    }
  }

  /** Nobody is jumped: a quote that still crosses comes after every maker that was filled. */
  lemma {:induction false} TradesSkipNobody(q: Quotes, t: Taker, qty: nat, fills: seq<Fill>, q': Quotes, left: nat, i: nat, x: nat)
    requires Trades(true, q, t, qty, fills, q', left) && i < |fills|
    requires Candidate(q', t.side, t.limit, x) && x != fills[i].maker
    ensures Precedes(t.side, fills[i].price, fills[i].maker, q'[x].price, x)
    decreases |fills|
  {
    var rest := Take(q, fills[0].maker, fills[0].qty);
    if i > 0 {
      TradesSkipNobody(rest, t, qty - fills[0].qty, fills[1..], q', left, i - 1, x);
    } else {
      TradesShrink(true, q, t, qty, fills, q', left, x);
      assert Candidate(q, t.side, t.limit, x);
    }
  }

  /** Quantity is neither made nor lost: for the taker and for every resting order. */
  lemma {:induction false} TradesConserve(fair: bool, q: Quotes, t: Taker, qty: nat, fills: seq<Fill>, q': Quotes, left: nat, id: nat)
    requires Trades(fair, q, t, qty, fills, q', left) && t.id !in q
    ensures FilledQty(fills) + left == qty
    ensures id != t.id ==> GivenBy(fills, id) + Resting(q', id) == Resting(q, id)
    ensures GivenBy(fills, t.id) == FilledQty(fills) && t.id !in q'
    decreases |fills|
  {
    if fills != [] {
      TradesConserve(fair, Take(q, fills[0].maker, fills[0].qty), t, qty - fills[0].qty, fills[1..], q', left, id);
    }
  }
}
