/** The level book carries out the reference book, as long as no total wraps to zero. */
module BookRefinement {
  import opened PriceTime
  import opened LevelBook

  // ----- well-formed walls, and the quotes they show

  ghost predicate GoodEntry(e: Entry, next: nat) {
    0 < e.qty && 0 < e.id < next
  }

  /** Queues are in time order. */
  ghost predicate InOrder(level: Level) {
    forall i, j | 0 <= i < j < |level| :: level[i].id < level[j].id
  }

  ghost predicate GoodWall(w: Wall, next: nat) {
    && w[0] == [] && w[100] == []
    && (forall p, i | 0 <= p < LEVELS && 0 <= i < |w[p]| :: GoodEntry(w[p][i], next))
    && (forall p | 0 <= p < LEVELS :: InOrder(w[p]))
  }

  ghost predicate InLevel(level: Level, id: nat) {
    exists i :: 0 <= i < |level| && level[i].id == id
  }

  /** The quotes of one side are exactly the entries of its wall. */
  ghost predicate ShowsSide(w: Wall, s: Side, q: Quotes) {
    && (forall p, i | 0 <= p < LEVELS && 0 <= i < |w[p]| ::
          w[p][i].id in q && q[w[p][i].id] == Quote(s, p, w[p][i].client, w[p][i].qty))
    && (forall id | id in q && q[id].side == s :: q[id].price < LEVELS && InLevel(w[q[id].price], id))
  }

  ghost predicate Shows(b: Book, q: Quotes) {
    && b.nextId > 0 && GoodWall(b.bids, b.nextId) && GoodWall(b.asks, b.nextId)
    && ShowsSide(b.bids, Yes, q) && ShowsSide(b.asks, No, q)
    && b.bestBid < 100 && 0 < b.bestAsk
  }

  lemma ShowsIds(b: Book, q: Quotes)
    requires Shows(b, q)
    ensures Ids(b) == q.Keys
  {
    forall id
      ensures id in q ==> id in Ids(b)
    {
      if id in q {
        assert InLevel(b.Side(q[id].side)[q[id].price], id);
      }
    }
  }

  // ----- what single queue operations do to the quotes

  lemma GoodRemove(w: Wall, next: nat, p: Tick, k: nat)
    requires GoodWall(w, next) && k < |w[p]|
    ensures GoodWall(w[p := Omit(w[p], k)], next)
  {
    var w' := w[p := Omit(w[p], k)];
    forall r, i | 0 <= r < LEVELS && 0 <= i < |w'[r]|
      ensures GoodEntry(w'[r][i], next)
    {
      assert w'[r][i] == w[r][if r == p && i >= k then i + 1 else i];
    }
    assert InOrder(w[p]);
    assert InOrder(Omit(w[p], k));
  }

  lemma ShowsRemoveEntry(w: Wall, s: Side, q: Quotes, next: nat, p: Tick, k: nat, r: Tick, i: nat)
    requires GoodWall(w, next) && ShowsSide(w, s, q) && k < |w[p]| && i < |w[p := Omit(w[p], k)][r]|
    ensures var e: Entry := w[p := Omit(w[p], k)][r][i];
      e.id != w[p][k].id && e.id in q && q[e.id] == Quote(s, r, e.client, e.qty)
  {
    var w': Wall := w[p := Omit(w[p], k)];
    var j := if r == p && i >= k then i + 1 else i;
    assert w'[r][i] == w[r][j];
    assert InOrder(w[p]);
    assert r == p ==> j != k;
  }

  lemma RemoveAt(w: Wall, s: Side, q: Quotes, next: nat, p: Tick, k: nat)
    requires GoodWall(w, next) && ShowsSide(w, s, q) && k < |w[p]|
    ensures GoodWall(w[p := Omit(w[p], k)], next) && ShowsSide(w[p := Omit(w[p], k)], s, q - {w[p][k].id})
  {
    GoodRemove(w, next, p, k);
    var w': Wall := w[p := Omit(w[p], k)];
    forall r, i | 0 <= r < LEVELS && 0 <= i < |w'[r]|
      ensures var e: Entry := w'[r][i]; e.id != w[p][k].id && e.id in q && q[e.id] == Quote(s, r, e.client, e.qty)
    {
      ShowsRemoveEntry(w, s, q, next, p, k, r, i);
    }
    forall x | x in q && q[x].side == s && x != w[p][k].id
      ensures InLevel(w'[q[x].price], x)
    {
      assert InLevel(w[q[x].price], x);
      InDrop(w, p, k, q[x].price, x);
    }
  }

  lemma InDrop(w: Wall, p: Tick, k: nat, r: Tick, x: nat)
    requires k < |w[p]| && InLevel(w[r], x) && x != w[p][k].id
    ensures InLevel(w[p := Omit(w[p], k)][r], x)
  {
    var i :| 0 <= i < |w[r]| && w[r][i].id == x;
    var w': Wall := w[p := Omit(w[p], k)];
    assert w'[r][if r == p && i > k then i - 1 else i].id == x;
  }

  lemma GoodSetQty(w: Wall, next: nat, p: Tick, k: nat, n: nat, w': Wall)
    requires GoodWall(w, next) && k < |w[p]| && n > 0 && w' == w[p := w[p][k := Entry(w[p][k].id, w[p][k].client, n)]]
    ensures GoodWall(w', next)
  {
    forall r, i | 0 <= r < LEVELS && 0 <= i < |w'[r]|
      ensures GoodEntry(w'[r][i], next)
    {
      assert GoodEntry(w[r][i], next);
    }
    forall r | 0 <= r < LEVELS
      ensures InOrder(w'[r])
    {
      assert InOrder(w[r]);
    }
  }

  lemma SameIds(w: Wall, w': Wall, r: Tick, x: nat)
    requires |w[r]| <= |w'[r]| && (forall i | 0 <= i < |w[r]| :: w'[r][i].id == w[r][i].id) && InLevel(w[r], x)
    ensures InLevel(w'[r], x)
  {
    var i :| 0 <= i < |w[r]| && w[r][i].id == x;
    assert w'[r][i].id == x;
  }

  lemma SetQty(w: Wall, s: Side, q: Quotes, next: nat, p: Tick, k: nat, n: nat, w': Wall)
    requires GoodWall(w, next) && ShowsSide(w, s, q) && k < |w[p]| && n > 0
    requires w' == w[p := w[p][k := Entry(w[p][k].id, w[p][k].client, n)]]
    ensures w[p][k].id in q && GoodWall(w', next)
    ensures ShowsSide(w', s, q[w[p][k].id := Quote(s, p, w[p][k].client, n)])
  {
    var id := w[p][k].id;
    var q' := q[id := Quote(s, p, w[p][k].client, n)];
    GoodSetQty(w, next, p, k, n, w');
    forall r, i | 0 <= r < LEVELS && 0 <= i < |w'[r]|
      ensures w'[r][i].id in q' && q'[w'[r][i].id] == Quote(s, r, w'[r][i].client, w'[r][i].qty)
    {
      assert w[r][i].id == id ==> r == p && i == k;
    }
    forall x | x in q' && q'[x].side == s
      ensures InLevel(w'[q'[x].price], x)
    {
      SameIds(w, w', q[x].price, x);
    }
  }

  lemma GoodAppend(w: Wall, next: nat, p: Tick, e: Entry, w': Wall)
    requires GoodWall(w, next) && 0 < p < 100 && e.id == next > 0 && e.qty > 0 && w' == w[p := w[p] + [e]]
    ensures GoodWall(w', next + 1)
  {
    forall r, i | 0 <= r < LEVELS && 0 <= i < |w'[r]|
      ensures GoodEntry(w'[r][i], next + 1)
    {
      assert i < |w[r]| ==> GoodEntry(w[r][i], next);
    }
    forall r | 0 <= r < LEVELS
      ensures InOrder(w'[r])
    {
      assert InOrder(w[r]);
      assert forall i | 0 <= i < |w[p]| :: GoodEntry(w[p][i], next);
    }
  }

  lemma Append(w: Wall, s: Side, q: Quotes, next: nat, p: Tick, e: Entry, w': Wall)
    requires GoodWall(w, next) && ShowsSide(w, s, q) && 0 < p < 100 && e.id == next > 0 && e.qty > 0 && next !in q
    requires w' == w[p := w[p] + [e]]
    ensures GoodWall(w', next + 1) && ShowsSide(w', s, q[next := Quote(s, p, e.client, e.qty)])
  {
    var q' := q[next := Quote(s, p, e.client, e.qty)];
    GoodAppend(w, next, p, e, w');
    forall r, i | 0 <= r < LEVELS && 0 <= i < |w'[r]|
      ensures w'[r][i].id in q' && q'[w'[r][i].id] == Quote(s, r, w'[r][i].client, w'[r][i].qty)
    {
      assert w'[r][i] == if i < |w[r]| then w[r][i] else e;
    }
    forall x | x in q' && q'[x].side == s
      ensures InLevel(w'[q'[x].price], x)
    {
      if x == next {
        assert w'[p][|w[p]|].id == next;
      } else {
        SameIds(w, w', q[x].price, x);
      }
    }
  }

  lemma GoodLater(w: Wall, next: nat)
    requires GoodWall(w, next)
    ensures GoodWall(w, next + 1)
  {
    forall p, i | 0 <= p < LEVELS && 0 <= i < |w[p]|
      ensures GoodEntry(w[p][i], next + 1)
    {
      assert GoodEntry(w[p][i], next);
    }
  }

  /** The quotes of a side agree. */
  ghost predicate SameSide(s: Side, q: Quotes, q': Quotes) {
    && (forall id | id in q && q[id].side == s :: id in q' && q'[id] == q[id])
    && (forall id | id in q' && q'[id].side == s :: id in q && q'[id] == q[id])
  }

  lemma ShowsSame(w: Wall, s: Side, q: Quotes, q': Quotes)
    requires ShowsSide(w, s, q) && SameSide(s, q, q')
    ensures ShowsSide(w, s, q')
  {
  }

  // ----- the loops trade as the reference does

  /** Every level that a taker would prefer to `ptr` is empty. */
  ghost predicate NothingBefore(w: Wall, side: Side, ptr: nat) {
    forall p | 0 <= p < LEVELS && Better(side, p, ptr) :: w[p] == []
  }

  /** Every level inside the limit that a taker would prefer to `ptr` is empty. */
  ghost predicate NonePassed(w: Wall, side: Side, limit: nat, ptr: nat) {
    forall p: Tick | Better(side, p, ptr) && Crosses(side, limit, p) :: w[p] == []
  }

  lemma FrontIsBest(w: Wall, q: Quotes, next: nat, t: Taker, ptr: Tick)
    requires GoodWall(w, next) && ShowsSide(w, t.side.Other(), q)
    requires Crosses(t.side, t.limit, ptr) && w[ptr] != []
    ensures Candidate(q, t.side, t.limit, w[ptr][0].id)
    ensures NonePassed(w, t.side, t.limit, ptr) ==> IsBest(q, t.side, t.limit, w[ptr][0].id)
  {
    if NonePassed(w, t.side, t.limit, ptr) {
      forall x | Candidate(q, t.side, t.limit, x) && x != w[ptr][0].id
        ensures Precedes(t.side, ptr, w[ptr][0].id, q[x].price, x)
      {
        var r := q[x].price;
        assert InLevel(w[r], x);
        var i :| 0 <= i < |w[r]| && w[r][i].id == x;
        assert InOrder(w[r]);
      }
    }
  }

  /** What the inner loop does to one level, as trades on the quotes. */
  ghost predicate LevelTraded(fair: bool, w: Wall, q: Quotes, next: nat, t: Taker, ptr: Tick, qty: nat, q': Quotes) {
    var m := MatchLevel(w[ptr], t, ptr, qty);
    && Trades(fair, q, t, qty, m.fills, q', m.qty) && (m.level == [] || m.qty == 0)
    && GoodWall(w[ptr := m.level], next) && ShowsSide(w[ptr := m.level], t.side.Other(), q')
  }

  lemma FrontFilled(fair: bool, w: Wall, q: Quotes, next: nat, t: Taker, ptr: Tick, qty: nat, q': Quotes)
    requires w[ptr] != [] && 0 < qty && w[ptr][0].qty <= qty
    requires w[ptr][0].id in q && q[w[ptr][0].id].qty == w[ptr][0].qty
    requires NextFill(fair, q, t, qty, Fill(w[ptr][0].id, t.id, ptr, w[ptr][0].qty, t.ts))
    requires LevelTraded(fair, w[ptr := Omit(w[ptr], 0)], q - {w[ptr][0].id}, next, t, ptr, qty - w[ptr][0].qty, q')
    ensures LevelTraded(fair, w, q, next, t, ptr, qty, q')
  {
    var w1 := w[ptr := Omit(w[ptr], 0)];
    var m := MatchLevel(w[ptr], t, ptr, qty);
    assert w1[ptr] == w[ptr][1..];
    assert m.fills[1..] == MatchLevel(w1[ptr], t, ptr, qty - w[ptr][0].qty).fills;
    assert w1[ptr := m.level] == w[ptr := m.level];
  }

  lemma FrontReduced(fair: bool, w: Wall, q: Quotes, next: nat, t: Taker, ptr: Tick, qty: nat, q': Quotes)
    requires GoodWall(w, next) && ShowsSide(w, t.side.Other(), q)
    requires w[ptr] != [] && 0 < qty < w[ptr][0].qty && w[ptr][0].id in q
    requires NextFill(fair, q, t, qty, Fill(w[ptr][0].id, t.id, ptr, qty, t.ts))
    requires q' == q[w[ptr][0].id := q[w[ptr][0].id].(qty := w[ptr][0].qty - qty)]
    ensures LevelTraded(fair, w, q, next, t, ptr, qty, q')
  {
    var e := w[ptr][0];
    var m := MatchLevel(w[ptr], t, ptr, qty);
    assert m.level == w[ptr][0 := e.(qty := e.qty - qty)];
    SetQty(w, t.side.Other(), q, next, ptr, 0, e.qty - qty, w[ptr := m.level]);
    assert Trades(fair, q', t, 0, m.fills[1..], q', m.qty);
  }

  lemma {:induction false} MatchLevelTrades(fair: bool, w: Wall, q: Quotes, next: nat, t: Taker, ptr: Tick, qty: nat) returns (q': Quotes)
    requires GoodWall(w, next) && ShowsSide(w, t.side.Other(), q)
    requires Crosses(t.side, t.limit, ptr) && (fair ==> NonePassed(w, t.side, t.limit, ptr))
    ensures LevelTraded(fair, w, q, next, t, ptr, qty, q')
    decreases |w[ptr]|
  {
    if w[ptr] == [] || qty == 0 {
      assert w[ptr := w[ptr]] == w;
      return q;
    }
    var e := w[ptr][0];
    assert GoodEntry(e, next);
    FrontIsBest(w, q, next, t, ptr);
    if e.qty <= qty {
      RemoveAt(w, t.side.Other(), q, next, ptr, 0);
      q' := MatchLevelTrades(fair, w[ptr := Omit(w[ptr], 0)], q - {e.id}, next, t, ptr, qty - e.qty);
      FrontFilled(fair, w, q, next, t, ptr, qty, q');
    } else {
      q' := q[e.id := q[e.id].(qty := e.qty - qty)];
      FrontReduced(fair, w, q, next, t, ptr, qty, q');
    }
  }

  lemma NothingLeft(w: Wall, q: Quotes, t: Taker, ptr: Tick)
    requires ShowsSide(w, t.side.Other(), q) && NonePassed(w, t.side, t.limit, ptr) && !Crosses(t.side, t.limit, ptr)
    ensures NoCandidate(q, t.side, t.limit)
  {
    forall x | x in q
      ensures !Candidate(q, t.side, t.limit, x)
    {
      if Candidate(q, t.side, t.limit, x) {
        assert InLevel(w[q[x].price], x);
        assert Better(t.side, q[x].price, ptr);
      }
    }
  }

  ghost predicate WallTraded(fair: bool, w: Wall, q: Quotes, next: nat, t: Taker, ptr: Tick, qty: nat, q': Quotes)
    requires 1 <= t.limit <= 99
  {
    var m := Sweep(w, t, ptr, qty);
    && Matched(fair, q, t, qty, m.fills, q', m.qty)
    && GoodWall(m.wall, next) && ShowsSide(m.wall, t.side.Other(), q')
  }

  lemma SweepUnfolds(w: Wall, t: Taker, ptr: Tick, qty: nat, m: LevelMatch)
    requires 1 <= t.limit <= 99 && Crosses(t.side, t.limit, ptr) && (t.side == Yes ==> ptr < 100) && qty > 0
    requires m == MatchLevel(w[ptr], t, ptr, qty)
    ensures var r := Sweep(w[ptr := m.level], t, Onward(t.side, ptr), m.qty);
      Sweep(w, t, ptr, qty) == WallMatch(r.wall, m.fills + r.fills, r.qty)
  {
  }

  lemma MatchedOn(fair: bool, q: Quotes, t: Taker, qty: nat, fills: seq<Fill>, mid: Quotes, some: nat,
                  more: seq<Fill>, q': Quotes, left: nat)
    requires Trades(fair, q, t, qty, fills, mid, some) && Matched(fair, mid, t, some, more, q', left)
    ensures Matched(fair, q, t, qty, fills + more, q', left)
  {
    TradesConcat(fair, q, t, qty, fills, mid, some, more, q', left);
  }

  /** The outer loop, entered where nothing better inside the limit rests, matches as the reference does. */
  lemma {:induction false} SweepTrades(fair: bool, w: Wall, q: Quotes, next: nat, t: Taker, ptr: Tick, qty: nat) returns (q': Quotes)
    requires GoodWall(w, next) && ShowsSide(w, t.side.Other(), q) && 1 <= t.limit <= 99
    requires fair ==> NonePassed(w, t.side, t.limit, ptr)
    ensures WallTraded(fair, w, q, next, t, ptr, qty, q')
    decreases if t.side == Yes then LEVELS - ptr else ptr
  {
    if !Crosses(t.side, t.limit, ptr) || qty == 0 {
      q' := q;
      if fair && qty > 0 { NothingLeft(w, q, t, ptr); }
    } else {
      var m := MatchLevel(w[ptr], t, ptr, qty);
      var q1 := MatchLevelTrades(fair, w, q, next, t, ptr, qty);
      if m.qty == 0 {
        q' := q1;
      } else {
        q' := SweepTrades(fair, w[ptr := m.level], q1, next, t, Onward(t.side, ptr), m.qty);
      }
      SweepUnfolds(w, t, ptr, qty, m);
      var r := Sweep(w[ptr := m.level], t, Onward(t.side, ptr), m.qty);
      MatchedOn(fair, q, t, qty, m.fills, q1, m.qty, r.fills, q', r.qty);
    }
  }

  // ----- one placement

  /** No order rests at a better price than a cached best says. */
  ghost predicate Covered(b: Book) {
    NothingBefore(b.asks, Yes, b.bestAsk) && NothingBefore(b.bids, No, b.bestBid)
  }

  /** A taker with this limit finds no order before the cached best that it starts from. */
  ghost predicate NoneSkipped(b: Book, side: Side, limit: nat) {
    NonePassed(b.Side(side.Other()), side, limit, Start(b, side))
  }

  lemma RescanShows(b: Book, q: Quotes)
    requires Shows(b, q)
    ensures Shows(Rescan(b), q)
  {
    RescanBidDown(b.bids, b.bestBid);
    RescanAskUp(b.asks, b.bestAsk);
  }

  lemma {:induction false} RescanBidDown(w: Wall, from: Tick)
    ensures RescanBid(w, from) <= from
  {
    if Depth(w[from]) == 0 && from != 0 { RescanBidDown(w, from - 1); }
  }

  lemma {:induction false} RescanAskUp(w: Wall, from: Tick)
    ensures RescanAsk(w, from) >= from
    decreases LEVELS - from
  {
    if Depth(w[from]) == 0 && from != 100 { RescanAskUp(w, from + 1); }
  }

  lemma TradesSameSide(fair: bool, q: Quotes, t: Taker, qty: nat, fills: seq<Fill>, q': Quotes, left: nat)
    requires Trades(fair, q, t, qty, fills, q', left)
    ensures SameSide(t.side, q, q')
  {
    forall id
      ensures id in q && q[id].side == t.side ==> id in q' && q'[id] == q[id]
      ensures id in q' && q'[id].side == t.side ==> id in q && q'[id] == q[id]
    {
      TradesShrink(fair, q, t, qty, fills, q', left, id);
    }
  }

  /** The book after the sweep shows the quotes after the trades. */
  lemma SweepShows(fair: bool, b: Book, q: Quotes, t: Taker, qty: nat) returns (q': Quotes)
    requires Shows(b, q) && 1 <= t.limit <= 99 && (fair ==> NoneSkipped(b, t.side, t.limit))
    ensures var m := Swept(b, t, qty);
      && Matched(fair, q, t, qty, m.fills, q', m.qty)
      && Shows(b.With(t.side.Other(), m.wall), q')
  {
    var m := Swept(b, t, qty);
    q' := SweepTrades(fair, b.Side(t.side.Other()), q, b.nextId, t, Start(b, t.side), qty);
    TradesSameSide(fair, q, t, qty, m.fills, q', m.qty);
    ShowsSame(b.Side(t.side), t.side, q, q');
  }

  lemma NextIsFresh(b: Book, q: Quotes)
    requires Shows(b, q)
    ensures forall id | id in q :: 0 < id < b.nextId
  {
    forall id | id in q
      ensures 0 < id < b.nextId
    {
      var w := b.Side(q[id].side);
      assert InLevel(w[q[id].price], id);
      var i :| 0 <= i < |w[q[id].price]| && w[q[id].price][i].id == id;
      assert GoodEntry(w[q[id].price][i], b.nextId);
    }
  }

  lemma RestShows(b: Book, q: Quotes, side: Side, price: Tick, client: nat, n: nat)
    requires Shows(b, q) && 1 <= price <= 99 && n > 0
    ensures Shows(Rest(b, side, price, Entry(b.nextId, client, n)).Numbered(b.nextId + 1),
                  q[b.nextId := Quote(side, price, client, n)])
  {
    var e := Entry(b.nextId, client, n);
    var w := b.Side(side);
    var q' := q[b.nextId := Quote(side, price, client, n)];
    NextIsFresh(b, q);
    Append(w, side, q, b.nextId, price, e, w[price := w[price] + [e]]);
    GoodLater(b.Side(side.Other()), b.nextId);
    ShowsSame(b.Side(side.Other()), side.Other(), q, q');
  }

  lemma LaterShows(b: Book, q: Quotes)
    requires Shows(b, q)
    ensures Shows(b.Numbered(b.nextId + 1), q)
  {
    GoodLater(b.bids, b.nextId);
    GoodLater(b.asks, b.nextId);
  }

  ghost function Settled(q: Quotes, t: Taker, client: nat, left: nat): Quotes {
    if left > 0 then q[t.id := Quote(t.side, t.limit, client, left)] else q
  }

  lemma BeforeShows(b: Book, q: Quotes, t: Taker, client: nat, m: WallMatch)
    requires 1 <= t.limit <= 99 && t.id == b.nextId && Shows(b.With(t.side.Other(), m.wall), q)
    ensures Shows(BeforeRescan(b, t, client, m), Settled(q, t, client, m.qty)) && t.id !in q
  {
    var c := b.With(t.side.Other(), m.wall);
    NextIsFresh(c, q);
    if m.qty > 0 {
      RestShows(c, q, t.side, t.limit, client, m.qty);
    } else {
      LaterShows(c, q);
    }
  }

  lemma SettleShows(b: Book, q: Quotes, t: Taker, client: nat, m: WallMatch)
    requires 1 <= t.limit <= 99 && t.id == b.nextId && Shows(b.With(t.side.Other(), m.wall), q)
    ensures Shows(Settle(b, t, client, m), Settled(q, t, client, m.qty)) && t.id !in q
  {
    BeforeShows(b, q, t, client, m);
    SettleIsRescan(b, t, client, m);
    RescanShows(BeforeRescan(b, t, client, m), Settled(q, t, client, m.qty));
  }

  ghost function BeforeRescan(b: Book, t: Taker, client: nat, m: WallMatch): Book
    requires 1 <= t.limit <= 99
  {
    var c := b.With(t.side.Other(), m.wall);
    if m.qty > 0 then Rest(c, t.side, t.limit, Entry(t.id, client, m.qty)).Numbered(t.id + 1)
    else c.Numbered(t.id + 1)
  }

  lemma SettleIsRescan(b: Book, t: Taker, client: nat, m: WallMatch)
    requires 1 <= t.limit <= 99
    ensures Settle(b, t, client, m) == Rescan(BeforeRescan(b, t, client, m))
  {
  }

  lemma SettledPlaces(fair: bool, q: Quotes, t: Taker, client: nat, qty: nat, fills: seq<Fill>, mid: Quotes, left: nat)
    requires Acceptable(q, t.limit, qty) && Matched(fair, q, t, qty, fills, mid, left) && t.id !in mid
    ensures Places(fair, q, t.id, client, t.side, t.limit, qty, t.ts,
                   Settled(mid, t, client, left), t.id + 1, PlaceResult(t.id, fills, left, true))
  {
    assert Settled(mid, t, client, left) - {t.id} == mid;
  }

  /** A placement does what the reference asks; fairly, if it skips no order. */
  lemma PlaceRefines(fair: bool, b: Book, q: Quotes, client: nat, side: Side, price: nat, qty: nat, ts: nat) returns (q': Quotes)
    requires Shows(b, q) && (fair && Acceptable(q, price, qty) ==> NoneSkipped(b, side, price))
    ensures var (c, r) := Place(b, client, side, price, qty, ts);
      Places(fair, q, b.nextId, client, side, price, qty, ts, q', c.nextId, r) && Shows(c, q')
  {
    ShowsIds(b, q);
    if !Acceptable(q, price, qty) {
      return q;
    }
    var t := Taker(b.nextId, side, price, ts);
    var m := Swept(b, t, qty);
    var mid := SweepShows(fair, b, q, t, qty);
    SettleShows(b, mid, t, client, m);
    SettledPlaces(fair, q, t, client, qty, m.fills, mid, m.qty);
    q' := Settled(mid, t, client, m.qty);
  }

  // ----- one cancellation

  lemma {:induction false} WithoutAbsent(level: Level, id: nat)
    requires !InLevel(level, id)
    ensures Without(level, id) == level
  {
    if level != [] {
      forall i | 0 <= i < |level[1..]|
        ensures level[1..][i].id != id
      {
        assert level[i + 1].id != id;
      }
      WithoutAbsent(level[1..], id);
    }
  }

  lemma {:induction false} WithoutPresent(level: Level, id: nat, k: nat)
    requires k < |level| && level[k].id == id && InOrder(level)
    ensures Without(level, id) == Omit(level, k)
  {
    if k > 0 {
      WithoutPresent(level[1..], id, k - 1);
      assert Omit(level, k) == [level[0]] + Omit(level[1..], k - 1);
    }
  }

  lemma WallWithoutAbsent(w: Wall, id: nat)
    requires forall p | 0 <= p < LEVELS :: !InLevel(w[p], id)
    ensures WallWithout(w, id) == w
  {
    forall p | 0 <= p < LEVELS
      ensures WallWithout(w, id)[p] == w[p]
    {
      WithoutAbsent(w[p], id);
    }
  }

  lemma WallWithoutPresent(w: Wall, s: Side, q: Quotes, next: nat, p: Tick, k: nat)
    requires GoodWall(w, next) && ShowsSide(w, s, q) && k < |w[p]|
    ensures WallWithout(w, w[p][k].id) == w[p := Omit(w[p], k)]
  {
    var id := w[p][k].id;
    forall r | 0 <= r < LEVELS
      ensures WallWithout(w, id)[r] == w[p := Omit(w[p], k)][r]
    {
      if r == p {
        assert InOrder(w[p]);
        WithoutPresent(w[p], id, k);
      } else {
        WithoutAbsent(w[r], id);
      }
    }
  }

  lemma OwnsQuote(w: Wall, s: Side, q: Quotes, id: nat, client: nat)
    requires ShowsSide(w, s, q)
    ensures Owns(w, id, client) <==> id in q && q[id].side == s && q[id].client == client
  {
    if id in q && q[id].side == s {
      assert InLevel(w[q[id].price], id);
    }
  }

  /** Dropping an id from both walls drops its quote. */
  lemma DropShows(b: Book, q: Quotes, id: nat)
    requires Shows(b, q) && id in q
    ensures Shows(Dropped(b, id), q - {id})
    ensures forall p | 0 <= p < LEVELS && b.bids[p] == [] :: WallWithout(b.bids, id)[p] == []
    ensures forall p | 0 <= p < LEVELS && b.asks[p] == [] :: WallWithout(b.asks, id)[p] == []
  {
    var s, p := q[id].side, q[id].price;
    var w := b.Side(s);
    assert InLevel(w[p], id);
    var k :| 0 <= k < |w[p]| && w[p][k].id == id;
    RemoveAt(w, s, q, b.nextId, p, k);
    WallWithoutPresent(w, s, q, b.nextId, p, k);
    WallWithoutAbsent(b.Side(s.Other()), id);
    ShowsSame(b.Side(s.Other()), s.Other(), q, q - {id});
  }

  lemma CancelRefines(b: Book, q: Quotes, id: nat, client: nat) returns (q': Quotes)
    requires Shows(b, q)
    ensures var (c, ok) := Cancel(b, id, client);
      Cancels(q, id, client, q', ok) && Shows(c, q') && c.nextId == b.nextId
  {
    OwnsQuote(b.bids, Yes, q, id, client);
    OwnsQuote(b.asks, No, q, id, client);
    if id !in q || q[id].client != client {
      return q;
    }
    q' := q - {id};
    DropShows(b, q, id);
    RescanShows(Dropped(b, id), q');
  }

  /** An operation that would be accepted as a placement skips no order. */
  ghost predicate Fair(b: Book, op: Op) {
    op.PlaceOp? && 1 <= op.price <= 99 && op.qty > 0 && |Ids(b)| < CAPACITY ==> NoneSkipped(b, op.side, op.price)
  }

  lemma ApplyRefines(fair: bool, b: Book, q: Quotes, op: Op) returns (q': Quotes)
    requires Shows(b, q) && (fair ==> Fair(b, op))
    ensures var (c, reply) := Apply(b, op);
      RefStep(fair, RefState(q, b.nextId), op, RefState(q', c.nextId), reply) && Shows(c, q')
  {
    ShowsIds(b, q);
    match op
    case PlaceOp(client, side, price, qty, ts) =>
      q' := PlaceRefines(fair, b, q, client, side, price, qty, ts);
    case CancelOp(id, client) =>
      q' := CancelRefines(b, q, id, client);
  }

  // ----- exactly when a placement is fair

  lemma {:induction false} LevelFillsAt(level: Level, t: Taker, price: nat, qty: nat, i: nat)
    requires i < |MatchLevel(level, t, price, qty).fills|
    ensures MatchLevel(level, t, price, qty).fills[i].price == price
    decreases |level|
  {
    if i > 0 {
      var traded := Min(level[0].qty, qty);
      LevelFillsAt(level[1..], t, price, qty - traded, i - 1);
    }
  }

  /** The sweep never trades at a price better than the one it starts from. */
  lemma {:induction false} SweepFillsBehind(w: Wall, t: Taker, ptr: Tick, qty: nat, i: nat)
    requires 1 <= t.limit <= 99 && i < |Sweep(w, t, ptr, qty).fills|
    ensures !Better(t.side, Sweep(w, t, ptr, qty).fills[i].price, ptr)
    decreases if t.side == Yes then LEVELS - ptr else ptr
  {
    var m := MatchLevel(w[ptr], t, ptr, qty);
    SweepUnfolds(w, t, ptr, qty, m);
    if i < |m.fills| {
      LevelFillsAt(w[ptr], t, ptr, qty, i);
    } else {
      SweepFillsBehind(w[ptr := m.level], t, Onward(t.side, ptr), m.qty, i - |m.fills|);
    }
  }

  /** A fair match of the sweep's own fills leaves no order skipped. */
  lemma FairSkipsNone(b: Book, q: Quotes, t: Taker, qty: nat, mid: Quotes, p: Tick)
    requires Shows(b, q) && 1 <= t.limit <= 99 && qty > 0
    requires Matched(true, q, t, qty, Swept(b, t, qty).fills, mid, Swept(b, t, qty).qty)
    requires Better(t.side, p, Start(b, t.side)) && Crosses(t.side, t.limit, p)
    ensures b.Side(t.side.Other())[p] == []
  {
    var w := b.Side(t.side.Other());
    var fills := Swept(b, t, qty).fills;
    NoneOrNext(q, t, qty, fills, mid, Swept(b, t, qty).qty);
    if w[p] != [] {
      var x := w[p][0].id;
      assert Candidate(q, t.side, t.limit, x);
      assert NextFill(true, q, t, qty, fills[0]);
      SweepFillsBehind(w, t, Start(b, t.side), qty, 0);
    }
  }

  /** An acceptable placement answers as the price-time reference if and only if no order inside its
      limit rests before the cached best it starts from. */
  lemma PlaceFairIff(b: Book, q: Quotes, client: nat, side: Side, price: nat, qty: nat, ts: nat)
    requires Shows(b, q) && Acceptable(q, price, qty)
    ensures var (c, r) := Place(b, client, side, price, qty, ts);
      (exists q' :: Places(true, q, b.nextId, client, side, price, qty, ts, q', c.nextId, r))
      <==> NoneSkipped(b, side, price)
  {
    var (c, r) := Place(b, client, side, price, qty, ts);
    var t := Taker(b.nextId, side, price, ts);
    ShowsIds(b, q);
    if NoneSkipped(b, side, price) {
      var q' := PlaceRefines(true, b, q, client, side, price, qty, ts);
    } else if q' :| Places(true, q, b.nextId, client, side, price, qty, ts, q', c.nextId, r) {
      forall p: Tick | Better(side, p, Start(b, side)) && Crosses(side, price, p)
        ensures b.Side(side.Other())[p] == []
      {
        FairSkipsNone(b, q, t, qty, q' - {b.nextId}, p);
      }
    }
  }
}
