/** What 32-bit totals hide: visibility read off the reference's quotes, and the smallest runs on
    which a hidden level shows. */
module BookWrap {
  import opened Machine
  import opened PriceTime
  import opened PriceTimeRuns
  import opened LevelBook
  import opened BookRefinement
  import opened BookRuns

  // ----- visibility, read off the reference

  /** The quantity quoted at a price under ids below n. */
  ghost function TotalAt(q: Quotes, s: Side, p: nat, n: nat): nat {
    if n == 0 then 0
    else
      TotalAt(q, s, p, n - 1) + if n - 1 in q && q[n - 1].side == s && q[n - 1].price == p then q[n - 1].qty else 0
  }

  /** No quote of the same side is at a price that takers prefer. */
  ghost predicate BestQuote(q: Quotes, id: nat) {
    id in q && forall x | x in q && q[x].side == q[id].side :: !Better(q[id].side.Other(), q[x].price, q[id].price)
  }

  /** Neither best price is quoted in a multiple of 2^32. */
  ghost predicate QuotesVisible(s: RefState) {
    forall id | BestQuote(s.quotes, id) ::
      TotalAt(s.quotes, s.quotes[id].side, s.quotes[id].price, s.next) % WORD32 != 0
  }

  lemma {:induction false} SumPrefix(level: Level, k: nat)
    requires 0 < k <= |level|
    ensures Sum(level[..k]) == Sum(level[..k - 1]) + level[k - 1].qty
    decreases k
  {
    if k > 1 {
      SumPrefix(level[1..], k - 1);
      assert level[..k][1..] == level[1..][..k - 1] && level[..k - 1][1..] == level[1..][..k - 2];
    } else {
      assert level[..1][1..] == [];
    }
  }

  /** The level holds exactly the quotes of one side and price, in the order of their ids. */
  ghost predicate Lists(level: Level, q: Quotes, s: Side, p: nat) {
    && InOrder(level)
    && (forall i | 0 <= i < |level| :: level[i].id in q && q[level[i].id].qty == level[i].qty)
    && (forall id | id in q :: InLevel(level, id) <==> q[id].side == s && q[id].price == p)
  }

  /** Exactly the first k entries have ids below n. */
  ghost predicate SplitsAt(level: Level, k: nat, n: nat) {
    k <= |level| && forall i | 0 <= i < |level| :: level[i].id < n <==> i < k
  }

  lemma LastBelow(level: Level, q: Quotes, s: Side, p: nat, k: nat, n: nat)
    requires Lists(level, q, s, p) && SplitsAt(level, k, n) && n > 0
    ensures if k > 0 && level[k - 1].id == n - 1 then
        SplitsAt(level, k - 1, n - 1) && n - 1 in q && q[n - 1] == Quote(s, p, q[n - 1].client, level[k - 1].qty)
      else SplitsAt(level, k, n - 1) && (n - 1 in q ==> q[n - 1].side != s || q[n - 1].price != p)
  {
    if k > 0 && level[k - 1].id == n - 1 {
      assert InLevel(level, n - 1);
    } else {
      assert !InLevel(level, n - 1);
    }
  }

  lemma {:induction false} SumUpTo(level: Level, q: Quotes, s: Side, p: nat, k: nat, n: nat)
    requires Lists(level, q, s, p) && SplitsAt(level, k, n)
    ensures Sum(level[..k]) == TotalAt(q, s, p, n)
    decreases n
  {
    if n > 0 {
      LastBelow(level, q, s, p, k, n);
      if k > 0 && level[k - 1].id == n - 1 {
        SumPrefix(level, k);
        SumUpTo(level, q, s, p, k - 1, n - 1);
      } else {
        SumUpTo(level, q, s, p, k, n - 1);
      }
    }
  }

  lemma LevelLists(w: Wall, s: Side, q: Quotes, next: nat, p: Tick)
    requires GoodWall(w, next) && ShowsSide(w, s, q)
    ensures Lists(w[p], q, s, p)
  {
  }

  lemma LevelTotal(w: Wall, s: Side, q: Quotes, next: nat, p: Tick)
    requires GoodWall(w, next) && ShowsSide(w, s, q)
    ensures Sum(w[p]) == TotalAt(q, s, p, next)
  {
    forall i | 0 <= i < |w[p]|
      ensures w[p][i].id < next
    {
      assert GoodEntry(w[p][i], next);
    }
    LevelLists(w, s, q, next, p);
    SumUpTo(w[p], q, s, p, |w[p]|, next);
    assert w[p][..|w[p]|] == w[p];
  }

  lemma SideVisible(w: Wall, s: Side, q: Quotes, next: nat)
    requires GoodWall(w, next) && ShowsSide(w, s, q)
    ensures (forall p: Tick | Top(w, s.Other(), p) :: Sum(w[p]) % WORD32 != 0) <==>
            (forall id | BestQuote(q, id) && q[id].side == s :: TotalAt(q, s, q[id].price, next) % WORD32 != 0)
  {
    forall p: Tick
      ensures Sum(w[p]) == TotalAt(q, s, p, next)
    {
      LevelTotal(w, s, q, next, p);
    }
    forall p: Tick | Top(w, s.Other(), p)
      ensures BestQuote(q, w[p][0].id) && q[w[p][0].id].side == s && q[w[p][0].id].price == p
    {
      forall x | x in q && q[x].side == s
        ensures !Better(s.Other(), q[x].price, p)
      {
        assert InLevel(w[q[x].price], x);
      }
    }
    forall p: Tick | w[p] != []
      ensures w[p][0].id in q && q[w[p][0].id].side == s && q[w[p][0].id].price == p
    {
    }
    forall id | BestQuote(q, id) && q[id].side == s
      ensures Top(w, s.Other(), q[id].price)
    {
      assert InLevel(w[q[id].price], id);
    }
  }

  lemma VisibleIff(b: Book, s: RefState)
    requires Matches(b, s)
    ensures Visible(b) <==> QuotesVisible(s)
  {
    SideVisible(b.bids, Yes, s.quotes, s.next);
    SideVisible(b.asks, No, s.quotes, s.next);
    assert forall id | id in s.quotes :: s.quotes[id].side == Yes || s.quotes[id].side == No;
  }

  /** From an exact book, an operation leaves the bests exact if and only if the reference's next
      quotes, which the state before fixes, are visible. */
  lemma StepExactIff(b: Book, s: RefState, op: Op, s': RefState, reply: Reply)
    requires Matches(b, s) && Exact(b) && Visible(b) && RefStep(true, s, op, s', reply)
    ensures Exact(Apply(b, op).0) <==> QuotesVisible(s')
  {
    var next := StepMatches(true, b, s, op);
    StepDeterministic(s, op, s', reply, next, Apply(b, op).1);
    VisibleIff(Apply(b, op).0, s');
    ApplyExactIff(b, s.quotes, op);
  }

  // ----- two halves of 2^32 at one price

  /** A book whose only orders are bids at 50. */
  ghost function BidsAt50(level: Level, best: Tick, next: nat): Book {
    Book(EmptyWall()[50 := level], EmptyWall(), best, 100, next)
  }

  lemma FewIds(level: Level, best: Tick, next: nat)
    requires |level| <= 2
    ensures |Ids(BidsAt50(level, best, next))| < CAPACITY
  {
    var ids := set i | 0 <= i < |level| :: level[i].id;
    assert Ids(BidsAt50(level, best, next)) == ids by {
      var w: Wall := EmptyWall()[50 := level];
      assert w[50] == level;
    }
    var two := (if |level| > 0 then {level[0].id} else {}) + (if |level| > 1 then {level[1].id} else {});
    SubsetSize(ids, two);
  }

  lemma BidRests(level: Level, best: Tick, next: nat, qty: nat)
    requires |level| <= 2 && best <= 50 && qty > 0
    ensures Place(BidsAt50(level, best, next), 1, Yes, 50, qty, 0)
         == (Rescan(BidsAt50(level + [Entry(next, 1, qty)], 50, next + 1)), PlaceResult(next, [], qty, true))
  {
    FewIds(level, best, next);
    var w: Wall := EmptyWall()[50 := level];
    assert w[50 := w[50] + [Entry(next, 1, qty)]] == EmptyWall()[50 := level + [Entry(next, 1, qty)]];
  }

  lemma {:induction false} RescanPastEmpty(w: Wall, from: Tick)
    requires forall p | 0 <= p <= from :: Depth(w[p]) == 0
    ensures RescanBid(w, from) == 0
  {
    if from > 0 { RescanPastEmpty(w, from - 1); }
  }

  lemma RescanAt50(level: Level, next: nat)
    ensures Rescan(BidsAt50(level, 50, next)) == BidsAt50(level, if Depth(level) == 0 then 0 else 50, next)
  {
    if Depth(level) == 0 {
      RescanPastEmpty(EmptyWall()[50 := level], 50);
    }
  }

  const HALF := Entry(1, 1, 0x8000_0000)
  const OTHER_HALF := Entry(2, 1, 0x8000_0000)

  lemma HalfDepths()
    ensures Depth([HALF]) != 0 && Sum([HALF, OTHER_HALF]) == WORD32 && Depth([HALF, OTHER_HALF]) == 0
  {
    assert [HALF][1..] == [] && [OTHER_HALF][1..] == [] && [HALF, OTHER_HALF][1..] == [OTHER_HALF];
    assert Sum([OTHER_HALF]) == 0x8000_0000;
  }

  lemma FirstHalf()
    ensures Apply(EmptyBook(), PlaceOp(1, Yes, 50, 0x8000_0000, 0)).0 == BidsAt50([HALF], 50, 2)
  {
    assert EmptyWall()[50 := []] == EmptyWall();
    BidRests([], 0, 1, 0x8000_0000);
    assert [] + [HALF] == [HALF];
    HalfDepths();
    RescanAt50([HALF], 2);
  }

  lemma SecondHalf()
    ensures Apply(BidsAt50([HALF], 50, 2), PlaceOp(1, Yes, 50, 0x8000_0000, 0)).0 == BidsAt50([HALF, OTHER_HALF], 0, 3)
  {
    BidRests([HALF], 50, 2, 0x8000_0000);
    assert [HALF] + [OTHER_HALF] == [HALF, OTHER_HALF];
    HalfDepths();
    RescanAt50([HALF, OTHER_HALF], 3);
  }

  lemma BothHalves(bid: Op)
    requires bid == PlaceOp(1, Yes, 50, 0x8000_0000, 0)
    ensures State([bid]) == BidsAt50([HALF], 50, 2) && State([bid, bid]) == BidsAt50([HALF, OTHER_HALF], 0, 3)
  {
    FirstHalf();
    SecondHalf();
    assert [] + [bid] == [bid] && [bid] + [bid] == [bid, bid];
    StateAppend([], bid);
    StateAppend([bid], bid);
  }

  /** What the two bids leave: two orders at 50, and a best bid of 0. */
  lemma HiddenBook(bid: Op)
    requires bid == PlaceOp(1, Yes, 50, 0x8000_0000, 0)
    ensures var b := State([bid, bid]);
      b.bestBid == 0 && |b.bids[50]| == 2 && b.nextId == 3 && |Ids(b)| < CAPACITY
  {
    BothHalves(bid);
    FewIds([HALF, OTHER_HALF], 0, 3);
  }

  lemma AskMissesHidden(b: Book, ask: Op)
    requires b.bestBid == 0 && b.bids[50] != [] && b.nextId == 3 && |Ids(b)| < CAPACITY && ask == PlaceOp(2, No, 50, 1, 0)
    ensures Apply(b, ask).1 == Placed(PlaceResult(3, [], 1, true))
    ensures Apply(b, ask).0.bids[50] != [] && Apply(b, ask).0.asks[50] != []
  {
    assert Swept(b, Taker(3, No, 50, 0), 1) == WallMatch(b.bids, [], 1);
  }

  lemma LastReply(ops: seq<Op>, op: Op)
    ensures Replies(ops + [op])[|ops|] == Apply(State(ops), op).1 && State(ops + [op]) == Apply(State(ops), op).0
  {
    StateAppend(ops, op);
  }

  /** Two bids of 2^31 at one price hide each other: the best bid reads 0 with two orders resting,
      the next ask at that price does not trade with them, and the book is crossed. */
  lemma HiddenLevelCrosses(bid: Op, ask: Op)
    requires bid == PlaceOp(1, Yes, 50, 0x8000_0000, 0) && ask == PlaceOp(2, No, 50, 1, 0)
    ensures State([bid, bid]).bestBid == 0 && |State([bid, bid]).bids[50]| == 2
    ensures Replies([bid, bid] + [ask])[2] == Placed(PlaceResult(3, [], 1, true))
    ensures State([bid, bid] + [ask]).bids[50] != [] && State([bid, bid] + [ask]).asks[50] != []
  {
    HiddenBook(bid);
    AskMissesHidden(State([bid, bid]), ask);
    LastReply([bid, bid], ask);
  }

  lemma HiddenAt50(b: Book)
    requires b == BidsAt50([HALF, OTHER_HALF], 0, 3)
    ensures !Visible(b)
  {
    HalfDepths();
    assert Top(b.bids, No, 50);
  }

  lemma NothingToSkip(b: Book, bid: Op)
    requires b.asks == EmptyWall() && bid.PlaceOp? && bid.side == Yes
    ensures Fair(b, bid)
  {
  }

  lemma FairTwice(a: Op, b: Op)
    requires Fair(State([]), a) && Fair(State([a]), b)
    ensures AllFair([a, b])
  {
    assert [a, b][..1] == [a] && [a][..0] == [];
    assert AllFair([a]);
  }

  /** A hidden level does no harm until an order would have crossed it. */
  lemma HiddenYetFair(bid: Op)
    requires bid == PlaceOp(1, Yes, 50, 0x8000_0000, 0)
    ensures !AllVisible([bid, bid]) && AllFair([bid, bid])
  {
    BothHalves(bid);
    HiddenAt50(State([bid, bid]));
    NothingToSkip(State([]), bid);
    NothingToSkip(State([bid]), bid);
    FairTwice(bid, bid);
  }
}
