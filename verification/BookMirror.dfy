/** YES and NO are mirror images: swapping the sides and reflecting each price p to 100 - p
    commutes with every run, wrapped totals included. */
module BookMirror {
  import opened PriceTime
  import opened LevelBook

  /** Prices above 100 are refused on both sides and stay as they are. */
  function Reflect(p: nat): nat {
    if p <= 100 then 100 - p else p
  }

  function MirrorWall(w: Wall): Wall {
    seq(LEVELS, p requires 0 <= p < LEVELS => w[100 - p])
  }

  function MirrorBook(b: Book): Book {
    Book(MirrorWall(b.asks), MirrorWall(b.bids), 100 - b.bestAsk, 100 - b.bestBid, b.nextId)
  }

  function MirrorTaker(t: Taker): Taker {
    Taker(t.id, t.side.Other(), Reflect(t.limit), t.ts)
  }

  function MirrorFills(fills: seq<Fill>): (r: seq<Fill>)
    ensures |r| == |fills|
  {
    seq(|fills|, i requires 0 <= i < |fills| => fills[i].(price := Reflect(fills[i].price)))
  }

  function MirrorMatch(m: WallMatch): WallMatch {
    WallMatch(MirrorWall(m.wall), MirrorFills(m.fills), m.qty)
  }

  function MirrorResult(r: PlaceResult): PlaceResult {
    r.(fills := MirrorFills(r.fills))
  }

  function MirrorOp(op: Op): Op {
    match op
    case PlaceOp(client, side, price, qty, ts) => PlaceOp(client, side.Other(), Reflect(price), qty, ts)
    case CancelOp(_, _) => op
  }

  function MirrorReply(r: Reply): Reply {
    match r
    case Placed(result) => Placed(MirrorResult(result))
    case Cancelled(_) => r
  }

  function MirrorOps(ops: seq<Op>): (r: seq<Op>)
    ensures |r| == |ops|
  {
    seq(|ops|, i requires 0 <= i < |ops| => MirrorOp(ops[i]))
  }

  function MirrorReplies(rs: seq<Reply>): (r: seq<Reply>)
    ensures |r| == |rs|
  {
    seq(|rs|, i requires 0 <= i < |rs| => MirrorReply(rs[i]))
  }

  // ----- the loops

  lemma {:induction false} MatchLevelMirror(level: Level, t: Taker, price: nat, qty: nat)
    ensures var m := MatchLevel(level, t, price, qty);
      MatchLevel(level, MirrorTaker(t), Reflect(price), qty) == LevelMatch(m.level, MirrorFills(m.fills), m.qty)
  {
    if level != [] && qty != 0 && level[0].qty <= qty {
      MatchLevelMirror(level[1..], t, price, qty - level[0].qty);
    }
  }

  lemma MirrorUpdate(w: Wall, p: Tick, level: Level)
    ensures MirrorWall(w[p := level]) == MirrorWall(w)[100 - p := level]
  {
  }

  lemma MirrorFillsConcat(a: seq<Fill>, b: seq<Fill>)
    ensures MirrorFills(a + b) == MirrorFills(a) + MirrorFills(b)
  {
  }

  lemma {:induction false} SweepMirror(w: Wall, t: Taker, ptr: Tick, qty: nat)
    requires 1 <= t.limit <= 99
    ensures Sweep(MirrorWall(w), MirrorTaker(t), 100 - ptr, qty) == MirrorMatch(Sweep(w, t, ptr, qty))
    decreases if t.side == Yes then LEVELS - ptr else ptr
  {
    if Crosses(t.side, t.limit, ptr) && qty != 0 {
      var m := MatchLevel(w[ptr], t, ptr, qty);
      var onward := Onward(t.side, ptr);
      MatchLevelMirror(w[ptr], t, ptr, qty);
      MirrorUpdate(w, ptr, m.level);
      SweepMirror(w[ptr := m.level], t, onward, m.qty);
      MirrorFillsConcat(m.fills, Sweep(w[ptr := m.level], t, onward, m.qty).fills);
    } else {
      assert MirrorFills([]) == [];
    }
  }

  lemma {:induction false} RescanBidMirror(w: Wall, from: Tick)
    ensures RescanAsk(MirrorWall(w), 100 - from) == 100 - RescanBid(w, from)
  {
    if Depth(w[from]) == 0 && from != 0 {
      RescanBidMirror(w, from - 1);
    }
  }

  lemma {:induction false} RescanAskMirror(w: Wall, from: Tick)
    ensures RescanBid(MirrorWall(w), 100 - from) == 100 - RescanAsk(w, from)
    decreases LEVELS - from
  {
    if Depth(w[from]) == 0 && from != 100 {
      RescanAskMirror(w, from + 1);
    }
  }

  lemma RescanMirror(b: Book)
    ensures Rescan(MirrorBook(b)) == MirrorBook(Rescan(b))
  {
    RescanBidMirror(b.bids, b.bestBid);
    RescanAskMirror(b.asks, b.bestAsk);
  }

  lemma RestMirror(b: Book, side: Side, price: Tick, e: Entry)
    ensures Rest(MirrorBook(b), side.Other(), 100 - price, e) == MirrorBook(Rest(b, side, price, e))
  {
    var w := b.Side(side);
    MirrorUpdate(w, price, w[price] + [e]);
  }

  lemma SweptMirror(b: Book, t: Taker, qty: nat)
    requires 1 <= t.limit <= 99
    ensures Swept(MirrorBook(b), MirrorTaker(t), qty) == MirrorMatch(Swept(b, t, qty))
  {
    SweepMirror(b.Side(t.side.Other()), t, Start(b, t.side), qty);
  }

  lemma WithMirror(b: Book, side: Side, w: Wall, next: nat)
    ensures MirrorBook(b).With(side, MirrorWall(w)).Numbered(next) == MirrorBook(b.With(side.Other(), w).Numbered(next))
  {
  }

  lemma CloseMirror(b: Book, side: Side, price: Tick, e: Entry)
    ensures Close(MirrorBook(b), side.Other(), 100 - price, e) == MirrorBook(Close(b, side, price, e))
  {
    if e.qty > 0 {
      RestMirror(b, side, price, e);
      RescanMirror(Rest(b, side, price, e));
    } else {
      RescanMirror(b);
    }
  }

  // ----- operations

  lemma WallIdsMirror(w: Wall)
    ensures WallIds(MirrorWall(w)) == WallIds(w)
  {
    var m := MirrorWall(w);
    forall p, i | 0 <= p < LEVELS && 0 <= i < |w[p]|
      ensures w[p][i].id in WallIds(m)
    {
      assert m[100 - p][i].id == w[p][i].id;
    }
    forall p, i | 0 <= p < LEVELS && 0 <= i < |m[p]|
      ensures m[p][i].id in WallIds(w)
    {
      assert w[100 - p][i].id == m[p][i].id;
    }
  }

  lemma OwnsMirror(w: Wall, id: nat, client: nat)
    ensures Owns(MirrorWall(w), id, client) <==> Owns(w, id, client)
  {
    var m := MirrorWall(w);
    if Owns(w, id, client) {
      var p, i :| 0 <= p < LEVELS && 0 <= i < |w[p]| && w[p][i].id == id && w[p][i].client == client;
      assert m[100 - p][i] == w[p][i];
    }
    if Owns(m, id, client) {
      var p, i :| 0 <= p < LEVELS && 0 <= i < |m[p]| && m[p][i].id == id && m[p][i].client == client;
      assert w[100 - p][i] == m[p][i];
    }
  }

  lemma WallWithoutMirror(w: Wall, id: nat)
    ensures WallWithout(MirrorWall(w), id) == MirrorWall(WallWithout(w, id))
  {
  }

  lemma SettleIsClose(b: Book, t: Taker, client: nat, m: WallMatch, c: Book)
    requires 1 <= t.limit <= 99 && c == b.With(t.side.Other(), m.wall).Numbered(t.id + 1)
    ensures Settle(b, t, client, m) == Close(c, t.side, t.limit, Entry(t.id, client, m.qty))
  {
  }

  lemma MirrorWith(b: Book, t: Taker, m: WallMatch, c: Book, d: Book)
    requires c == b.With(t.side.Other(), m.wall).Numbered(t.id + 1)
    requires d == MirrorBook(b).With(MirrorTaker(t).side.Other(), MirrorMatch(m).wall).Numbered(t.id + 1)
    ensures d == MirrorBook(c)
  {
    assert MirrorTaker(t).side.Other() == t.side;
    WithMirror(b, t.side, m.wall, t.id + 1);
  }

  lemma CloseMirrored(c: Book, d: Book, side: Side, other: Side, price: Tick, price': Tick, e: Entry)
    requires d == MirrorBook(c) && other == side.Other() && price' == 100 - price
    ensures Close(d, other, price', e) == MirrorBook(Close(c, side, price, e))
  {
    CloseMirror(c, side, price, e);
  }

  lemma AcceptedMirror(b: Book, t: Taker, client: nat, m: WallMatch)
    requires 1 <= t.limit <= 99
    ensures Settle(MirrorBook(b), MirrorTaker(t), client, MirrorMatch(m)) == MirrorBook(Settle(b, t, client, m))
  {
    var t' := MirrorTaker(t);
    var c := b.With(t.side.Other(), m.wall).Numbered(t.id + 1);
    var d := MirrorBook(b).With(t'.side.Other(), MirrorMatch(m).wall).Numbered(t.id + 1);
    SettleIsClose(b, t, client, m, c);
    SettleIsClose(MirrorBook(b), t', client, MirrorMatch(m), d);
    MirrorWith(b, t, m, c, d);
    CloseMirrored(c, d, t.side, t'.side, t.limit, t'.limit, Entry(t.id, client, m.qty));
  }

  lemma PlaceMirror(b: Book, client: nat, side: Side, price: nat, qty: nat, ts: nat)
    ensures var (c, r) := Place(b, client, side, price, qty, ts);
      Place(MirrorBook(b), client, side.Other(), Reflect(price), qty, ts) == (MirrorBook(c), MirrorResult(r))
  {
    WallIdsMirror(b.bids);
    WallIdsMirror(b.asks);
    assert Ids(MirrorBook(b)) == Ids(b);
    assert MirrorFills([]) == [];
    if 1 <= price <= 99 {
      var t := Taker(b.nextId, side, price, ts);
      SweptMirror(b, t, qty);
      AcceptedMirror(b, t, client, Swept(b, t, qty));
    }
  }

  lemma CancelMirror(b: Book, id: nat, client: nat)
    ensures var (c, ok) := Cancel(b, id, client); Cancel(MirrorBook(b), id, client) == (MirrorBook(c), ok)
  {
    OwnsMirror(b.bids, id, client);
    OwnsMirror(b.asks, id, client);
    WallWithoutMirror(b.bids, id);
    WallWithoutMirror(b.asks, id);
    RescanMirror(Dropped(b, id));
  }

  lemma ApplyMirror(b: Book, op: Op)
    ensures Apply(MirrorBook(b), MirrorOp(op)) == (MirrorBook(Apply(b, op).0), MirrorReply(Apply(b, op).1))
  {
    match op
    case PlaceOp(client, side, price, qty, ts) => PlaceMirror(b, client, side, price, qty, ts);
    case CancelOp(id, client) => CancelMirror(b, id, client);
  }

  lemma EmptyMirror()
    ensures MirrorBook(EmptyBook()) == EmptyBook()
  {
    assert MirrorWall(EmptyWall()) == EmptyWall();
  }

  lemma MirrorOpsPrefix(ops: seq<Op>)
    requires ops != []
    ensures var n := |ops| - 1; MirrorOps(ops) == MirrorOps(ops[..n]) + [MirrorOp(ops[n])]
  {
  }

  lemma MirrorRepliesAppend(rs: seq<Reply>, r: Reply)
    ensures MirrorReplies(rs + [r]) == MirrorReplies(rs) + [MirrorReply(r)]
  {
  }

  /** A mirrored run reaches the mirrored book and gives the mirrored answers. */
  lemma {:induction false} RunMirror(ops: seq<Op>)
    ensures State(MirrorOps(ops)) == MirrorBook(State(ops))
    ensures Replies(MirrorOps(ops)) == MirrorReplies(Replies(ops))
  {
    if ops == [] {
      EmptyMirror();
    } else {
      var n := |ops| - 1;
      var init, op := ops[..n], ops[n];
      RunMirror(init);
      MirrorOpsPrefix(ops);
      StateAppend(MirrorOps(init), MirrorOp(op));
      ApplyMirror(State(init), op);
      MirrorRepliesAppend(Replies(init), Apply(State(init), op).1);
    }
  }
}
