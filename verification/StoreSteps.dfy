/** The steps the engine takes through its memory, and why each keeps all views of the book in agreement. */
module StoreSteps {
  import opened Machine
  import opened Pools
  import opened PriceTime
  import opened LevelBook
  import opened OrderStore

  ghost function Put(st: Store, s: Side, p: Tick, lv: PriceLevel, list: seq<nat>): (r: Store)
    requires st.Shaped()
    ensures r.Shaped() && r.Levels(s)[p] == lv && r.Lists(s)[p] == list
    ensures forall s': Side, p': Tick | !(s' == s && p' == p) ::
      r.Levels(s')[p'] == st.Levels(s')[p'] && r.Lists(s')[p'] == st.Lists(s')[p']
    ensures r.mem == st.mem && r.live == st.live && r.index == st.index
  {
    if s == Yes then Store(st.mem, st.bids[p := lv], st.asks, st.bidLists[p := list], st.askLists, st.live, st.index)
    else Store(st.mem, st.bids, st.asks[p := lv], st.bidLists, st.askLists[p := list], st.live, st.index)
  }

  /** The same levels and lists over other memory, live blocks and index. */
  ghost function Patched(st: Store, mem: Memory, live: set<nat>, index: map<Word, nat>): Store {
    Store(mem, st.bids, st.asks, st.bidLists, st.askLists, live, index)
  }

  /** The order in block c is the same but for its links. */
  ghost predicate SameOrder(mem: Memory, mem': Memory, c: nat) {
    && c < |mem| == |mem'| && mem[c].Data? && mem'[c].Data?
    && mem'[c].value == mem[c].value.(prev := mem'[c].value.prev, next := mem'[c].value.next)
  }

  /** Same queues everywhere but at (s0, p0). */
  ghost predicate SameQueues(st: Store, st': Store, s0: Side, p0: Tick)
    requires st.Shaped() && st'.Shaped()
  {
    forall s: Side, p: Tick | !(s == s0 && p == p0) :: st'.Queue(s, p) == st.Queue(s, p)
  }

  // ----- a trade between the front of a level and the held order

  /** The blocks that a trade touches are live orders. */
  ghost predicate TradeReady(st: Store, s: Side, p: Tick, held: nat, x: nat) {
    && st.Shaped() && st.Lists(s)[p] != []
    && held < |st.mem| && held in st.live && st.mem[held].Data? && x <= st.mem[held].value.qty
    && var cur := st.Lists(s)[p][0];
       cur < |st.mem| && cur in st.live && cur != held && st.mem[cur].Data? && x <= st.mem[cur].value.qty
  }

  ghost function Traded(st: Store, s: Side, p: Tick, held: nat, x: nat, total: nat): (r: Store)
    requires TradeReady(st, s, p, held, x)
  {
    var lv, list := st.Levels(s)[p], st.Lists(s)[p];
    var mem1 := OrderStore.SetQty(st.mem, list[0], st.mem[list[0]].value.qty - x);
    Patched(Put(st, s, p, WithTotal(lv, total), list), OrderStore.SetQty(mem1, held, st.mem[held].value.qty - x),
            st.live, st.index)
  }

  ghost predicate CanTrade(st: Store, s: Side, p: Tick, held: nat, x: nat) {
    st.Consistent({held}) && TradeReady(st, s, p, held, x)
  }

  lemma FrontIsNode(st: Store, held: set<nat>, s: Side, p: Tick)
    requires st.Consistent(held) && st.Lists(s)[p] != []
    ensures var b := st.Lists(s)[p][0];
      b < |st.mem| && st.mem[b].Data? && b in st.live && b !in held && st.Queue(s, p)[0] == EntryAt(st.mem, b)
  {
    assert st.Lists(s)[p][0] in st.Lists(s)[p];
    OwnLevel(st, held, s, p, st.Lists(s)[p][0]);
  }

  /** The front order of a queue is x smaller. */
  function Reduced(q: Level, x: nat): Level
    requires q != [] && x <= q[0].qty
  {
    [Entry(q[0].id, q[0].client, q[0].qty - x)] + q[1..]
  }

  lemma FrontTotal(q: Level, x: nat)
    requires q != [] && x <= q[0].qty
    ensures Depth(Reduced(q, x)) == Moved(Depth(q), 0 - x)
  {
    assert Reduced(q, x) == q[0 := q[0].(qty := q[0].qty - x)];
    SumFront(q, q[0].qty - x);
    TotalShift(Sum(q), 0 - x);
  }

  lemma CutTotal(q: Level, k: nat)
    requires k < |q|
    ensures Depth(q[..k] + q[k + 1..]) == Moved(Depth(q), 0 - q[k].qty)
  {
    SumWithout(q, k);
    TotalShift(Sum(q), 0 - q[k].qty);
  }

  lemma BackTotal(q: Level, e: Entry)
    ensures Depth(q + [e]) == Moved(Depth(q), e.qty)
  {
    SumBack(q, e);
    TotalShift(Sum(q), e.qty);
  }

  lemma TradedList(mem: Memory, lv: PriceLevel, list: seq<nat>, s: Side, p: nat, held: nat, x: nat, hq: nat, total: nat)
    requires Linked(mem, lv, list, s, p) && lv.total == Depth(View(mem, list))
    requires list != [] && held !in list && held < |mem| && mem[held].Data? && x <= View(mem, list)[0].qty
    requires total == Depth(Reduced(View(mem, list), x))
    ensures list[0] < |mem| && mem[list[0]].Data?
    ensures var q := View(mem, list);
      var mem' := OrderStore.SetQty(OrderStore.SetQty(mem, list[0], q[0].qty - x), held, hq);
      var lv' := WithTotal(lv, total);
      && Linked(mem', lv', list, s, p) && View(mem', list) == Reduced(q, x)
      && lv'.total == Depth(View(mem', list))
  {
    var q := View(mem, list);
    var lv' := WithTotal(lv, total);
    assert LinkedAt(mem, list, 0, s, p);
    assert Linked(mem, lv', list, s, p);
    LinkedSetQty(mem, lv', list, s, p, 0, q[0].qty - x);
    var mem1 := OrderStore.SetQty(mem, list[0], q[0].qty - x);
    var mem' := OrderStore.SetQty(mem1, held, hq);
    forall i | 0 <= i < |list|
      ensures list[i] < |mem1| && mem'[list[i]] == mem1[list[i]]
    {
      assert LinkedAt(mem1, list, i, s, p) && list[i] in list;
    }
    LinkedFrame(mem1, mem', lv', list, s, p);
    assert q[0 := EntryAt(mem, list[0]).(qty := q[0].qty - x)] == Reduced(q, x);
  }

  lemma TradedLevel(st: Store, st': Store, s: Side, p: Tick, held: nat, x: nat, hq: nat, total: nat)
    requires st.Shaped() && st'.Shaped() && st.LevelOk(s, p)
    requires st.Lists(s)[p] != [] && held !in st.Lists(s)[p]
    requires x <= st.Queue(s, p)[0].qty && total == Depth(Reduced(st.Queue(s, p), x))
    requires held < |st.mem| && st.mem[held].Data? && st.Lists(s)[p][0] < |st.mem| && st.mem[st.Lists(s)[p][0]].Data?
    requires x <= st.mem[st.Lists(s)[p][0]].value.qty
    requires st'.Lists(s)[p] == st.Lists(s)[p]
    requires st'.Levels(s)[p] == WithTotal(st.Levels(s)[p], total)
    requires st'.mem ==
      OrderStore.SetQty(OrderStore.SetQty(st.mem, st.Lists(s)[p][0], st.mem[st.Lists(s)[p][0]].value.qty - x), held, hq)
    ensures st'.LevelOk(s, p)
    ensures st'.Queue(s, p) == Reduced(st.Queue(s, p), x)
  {
    TradedList(st.mem, st.Levels(s)[p], st.Lists(s)[p], s, p, held, x, hq, total);
  }

  lemma TradedHere(st: Store, s: Side, p: Tick, held: nat, x: nat, st': Store, total: nat)
    requires TradeReady(st, s, p, held, x) && st' == Traded(st, s, p, held, x, total)
    requires x <= st.Queue(s, p)[0].qty && total == Depth(Reduced(st.Queue(s, p), x))
    requires st.LevelOk(s, p) && held !in st.Lists(s)[p]
    ensures st'.LevelOk(s, p) && st'.Queue(s, p) == Reduced(st.Queue(s, p), x)
  {
    TradedLevel(st, st', s, p, held, x, st.mem[held].value.qty - x, total);
  }

  lemma TradedElsewhere(st: Store, s: Side, p: Tick, held: nat, x: nat, total: nat)
    requires CanTrade(st, s, p, held, x)
    ensures SameElsewhere(st, {held}, Traded(st, s, p, held, x, total), s, p)
  {
    var st' := Traded(st, s, p, held, x, total);
    var list := st.Lists(s)[p];
    forall b | b in st.live && b !in {held} && b < |st.mem| && b !in list
      ensures st'.mem[b] == st.mem[b]
    {
      assert list[0] in list;
    }
  }

  lemma TradedLevels(st: Store, s: Side, p: Tick, held: nat, x: nat, st': Store, total: nat)
    requires CanTrade(st, s, p, held, x) && st' == Traded(st, s, p, held, x, total)
    requires x <= st.Queue(s, p)[0].qty && total == Depth(Reduced(st.Queue(s, p), x))
    ensures (forall s': Side, p': Tick :: st'.LevelOk(s', p')) && SameQueues(st, st', s, p)
    ensures st'.Queue(s, p) == Reduced(st.Queue(s, p), x)
  {
    assert st.LevelOk(s, p);
    TradedHere(st, s, p, held, x, st', total);
    TradedElsewhere(st, s, p, held, x, total);
    forall s': Side, p': Tick
      ensures st'.LevelOk(s', p') && (!(s' == s && p' == p) ==> st'.Queue(s', p') == st.Queue(s', p'))
    {
      if !(s' == s && p' == p) {
        ElsewhereOk(st, {held}, st', s, p, s', p');
      }
    }
  }

  lemma TradedRests(st: Store, s: Side, p: Tick, held: nat, x: nat, b: nat, total: nat)
    requires CanTrade(st, s, p, held, x) && b in st.live && b != held
    ensures Traded(st, s, p, held, x, total).Rests(b)
  {
    FrontIsNode(st, {held}, s, p);
    assert st.Rests(b);
    var n := st.mem[b].value;
    assert Traded(st, s, p, held, x, total).Lists(n.side)[n.price] == st.Lists(n.side)[n.price];
  }

  lemma TradedMembers(st: Store, s: Side, p: Tick, held: nat, x: nat, st': Store, total: nat)
    requires CanTrade(st, s, p, held, x) && st' == Traded(st, s, p, held, x, total)
    ensures {held} <= st'.live
    ensures forall s': Side, p': Tick, b | b in st'.Lists(s')[p'] :: b in st'.live && b !in {held}
    ensures forall b | b in st'.live && b !in {held} :: st'.Rests(b)
    ensures forall id | id in st'.index :: st'.index[id] in st'.live && st'.index[id] !in {held} && st'.Named(st'.index[id], id)
  {
    forall s': Side, p': Tick, b | b in st'.Lists(s')[p']
      ensures b in st'.live && b !in {held}
    {
      assert st'.Lists(s')[p'] == st.Lists(s')[p'];
    }
    forall b | b in st'.live && b !in {held}
      ensures st'.Rests(b)
    {
      TradedRests(st, s, p, held, x, b, total);
    }
    forall id | id in st'.index
      ensures st'.Named(st'.index[id], id)
    {
      assert st.Named(st.index[id], id);
    }
  }

  /** A trade moves the same quantity off the front order, the level total and the taker. */
  lemma TradedConsistent(st: Store, s: Side, p: Tick, held: nat, x: nat, total: nat)
    requires CanTrade(st, s, p, held, x)
    requires x <= st.Queue(s, p)[0].qty && total == Depth(Reduced(st.Queue(s, p), x))
    ensures var st' := Traded(st, s, p, held, x, total);
      st'.Consistent({held}) && SameQueues(st, st', s, p) && st'.Queue(s, p) == Reduced(st.Queue(s, p), x)
  {
    var st' := Traded(st, s, p, held, x, total);
    TradedLevels(st, s, p, held, x, st', total);
    TradedMembers(st, s, p, held, x, st', total);
  }

  // ----- removing an order

  /** The order in position k and its neighbours are live. */
  ghost predicate RemoveReady(st: Store, s: Side, p: Tick, k: nat) {
    && st.Shaped() && k < |st.Lists(s)[p]|
    && var b := st.Lists(s)[p][k];
       && b < |st.mem| && b in st.live && st.mem[b].Data? && Unlinkable(st.mem, st.mem[b].value)
       && st.mem[b].value.id in st.index
       && (st.mem[b].value.prev.Ref? ==> st.mem[b].value.prev.block in st.live)
       && (st.mem[b].value.next.Ref? ==> st.mem[b].value.next.block in st.live)
  }

  ghost function Removed(st: Store, s: Side, p: Tick, k: nat, link: Ptr, total: nat): (r: Store)
    requires RemoveReady(st, s, p, k)
  {
    var lv, b := st.Levels(s)[p], st.Lists(s)[p][k];
    var n := st.mem[b].value;
    Patched(Put(st, s, p, WithTotal(LevelUnlinked(lv, n), total), Omit(st.Lists(s)[p], k)),
            Unlinked(st.mem, n)[b := Link(link)], st.live - {b}, st.index - {n.id})
  }

  ghost predicate CanRemove(st: Store, held: set<nat>, s: Side, p: Tick, k: nat) {
    st.Consistent(held) && RemoveReady(st, s, p, k)
  }

  lemma NodeInList(st: Store, held: set<nat>, s: Side, p: Tick, k: nat)
    requires st.Consistent(held) && k < |st.Lists(s)[p]|
    ensures CanRemove(st, held, s, p, k)
    ensures var b := st.Lists(s)[p][k]; b !in held && st.Queue(s, p)[k] == EntryAt(st.mem, b) && st.Rests(b)
  {
    var list := st.Lists(s)[p];
    assert list[k] in list;
    assert st.Rests(list[k]);
    assert st.LevelOk(s, p);
    UnlinkableAt(st.mem, st.Levels(s)[p], list, s, p, k);
    assert k > 0 ==> list[k - 1] in list;
    assert k + 1 < |list| ==> list[k + 1] in list;
  }

  lemma CutMembers(list: seq<nat>, k: nat, b: nat)
    requires NoDuplicates(list) && k < |list|
    ensures b in Omit(list, k) <==> b in list && b != list[k]
  {
    if b in list && b != list[k] {
      var i :| 0 <= i < |list| && list[i] == b;
      assert Omit(list, k)[if i < k then i else i - 1] == b;
    }
    if b in Omit(list, k) {
      var i :| 0 <= i < |Omit(list, k)| && Omit(list, k)[i] == b;
      assert list[if i < k then i else i + 1] == b;
    }
  }

  lemma RemovedList(mem: Memory, lv: PriceLevel, list: seq<nat>, s: Side, p: nat, k: nat, link: Ptr, total: nat)
    requires Linked(mem, lv, list, s, p) && lv.total == Depth(View(mem, list)) && k < |list|
    requires total == Depth(View(mem, list)[..k] + View(mem, list)[k + 1..])
    ensures LinkedAt(mem, list, k, s, p) && Unlinkable(mem, NodeAt(mem, list[k]))
    ensures var q := View(mem, list);
      var n := NodeAt(mem, list[k]);
      var mem' := Unlinked(mem, n)[list[k] := Link(link)];
      var lv' := WithTotal(LevelUnlinked(lv, n), total);
      && Linked(mem', lv', Omit(list, k), s, p) && View(mem', Omit(list, k)) == q[..k] + q[k + 1..]
      && lv'.total == Depth(View(mem', Omit(list, k)))
  {
    UnlinkKeepsList(mem, lv, list, s, p, k);
    var n, list' := NodeAt(mem, list[k]), Omit(list, k);
    var mem1 := Unlinked(mem, n);
    var mem' := mem1[list[k] := Link(link)];
    var lv' := WithTotal(LevelUnlinked(lv, n), total);
    assert Linked(mem1, lv', list', s, p);
    forall i | 0 <= i < |list'|
      ensures list'[i] < |mem1| && mem'[list'[i]] == mem1[list'[i]]
    {
      assert LinkedAt(mem1, list', i, s, p);
      CutMembers(list, k, list'[i]);
    }
    LinkedFrame(mem1, mem', lv', list', s, p);
  }

  lemma RemovedLevel(st: Store, held: set<nat>, s: Side, p: Tick, k: nat, link: Ptr, total: nat)
    requires CanRemove(st, held, s, p, k)
    requires total == Depth(st.Queue(s, p)[..k] + st.Queue(s, p)[k + 1..])
    ensures var st' := Removed(st, s, p, k, link, total);
      st'.LevelOk(s, p) && st'.Queue(s, p) == st.Queue(s, p)[..k] + st.Queue(s, p)[k + 1..]
  {
    assert st.LevelOk(s, p) && LinkedAt(st.mem, st.Lists(s)[p], k, s, p);
    RemovedList(st.mem, st.Levels(s)[p], st.Lists(s)[p], s, p, k, link, total);
  }

  lemma RemovedSame(st: Store, held: set<nat>, s: Side, p: Tick, k: nat, link: Ptr, c: nat, total: nat)
    requires CanRemove(st, held, s, p, k) && c < |st.mem| && c != st.Lists(s)[p][k]
    ensures var st' := Removed(st, s, p, k, link, total);
      && |st'.mem| == |st.mem|
      && (c !in st.Lists(s)[p] ==> st'.mem[c] == st.mem[c])
      && (st.mem[c].Data? ==> SameOrder(st.mem, st'.mem, c))
  {
    NodeInList(st, held, s, p, k);
    assert st.LevelOk(s, p);
    UnlinkedAt(st.mem, st.Levels(s)[p], st.Lists(s)[p], s, p, k, c);
  }

  lemma RemovedRests(st: Store, held: set<nat>, s: Side, p: Tick, k: nat, link: Ptr, c: nat, total: nat)
    requires CanRemove(st, held, s, p, k) && c in st.live && c !in held && c != st.Lists(s)[p][k]
    ensures Removed(st, s, p, k, link, total).Rests(c)
  {
    NodeInList(st, held, s, p, k);
    var st' := Removed(st, s, p, k, link, total);
    assert st.Rests(c) && st.LevelOk(s, p);
    RemovedSame(st, held, s, p, k, link, c, total);
    CutMembers(st.Lists(s)[p], k, c);
  }

  lemma RemovedInLive(st: Store, held: set<nat>, s: Side, p: Tick, k: nat, link: Ptr, s': Side, p': Tick, c: nat, total: nat)
    requires CanRemove(st, held, s, p, k)
    requires c in Removed(st, s, p, k, link, total).Lists(s')[p']
    ensures c in st.live && c != st.Lists(s)[p][k] && c !in held
  {
    NodeInList(st, held, s, p, k);
    assert st.LevelOk(s, p);
    CutMembers(st.Lists(s)[p], k, c);
    OwnLevel(st, held, s', p', c);
    OwnLevel(st, held, s, p, st.Lists(s)[p][k]);
  }

  lemma RemovedElsewhere(st: Store, held: set<nat>, s: Side, p: Tick, k: nat, link: Ptr, total: nat)
    requires CanRemove(st, held, s, p, k)
    ensures SameElsewhere(st, held, Removed(st, s, p, k, link, total), s, p)
  {
    NodeInList(st, held, s, p, k);
    forall b | b in st.live && b !in held && b < |st.mem| && b !in st.Lists(s)[p]
      ensures Removed(st, s, p, k, link, total).mem[b] == st.mem[b]
    {
      RemovedSame(st, held, s, p, k, link, b, total);
    }
  }

  lemma RemovedLevels(st: Store, held: set<nat>, s: Side, p: Tick, k: nat, link: Ptr, st': Store, total: nat)
    requires CanRemove(st, held, s, p, k) && st' == Removed(st, s, p, k, link, total)
    requires total == Depth(st.Queue(s, p)[..k] + st.Queue(s, p)[k + 1..])
    ensures (forall s': Side, p': Tick :: st'.LevelOk(s', p')) && SameQueues(st, st', s, p)
    ensures st'.Queue(s, p) == st.Queue(s, p)[..k] + st.Queue(s, p)[k + 1..]
  {
    RemovedLevel(st, held, s, p, k, link, total);
    RemovedElsewhere(st, held, s, p, k, link, total);
    forall s': Side, p': Tick
      ensures st'.LevelOk(s', p') && (!(s' == s && p' == p) ==> st'.Queue(s', p') == st.Queue(s', p'))
    {
      if !(s' == s && p' == p) {
        ElsewhereOk(st, held, st', s, p, s', p');
      }
    }
  }

  lemma RemovedIndex(st: Store, held: set<nat>, s: Side, p: Tick, k: nat, link: Ptr, id: Word, total: nat)
    requires CanRemove(st, held, s, p, k) && id in Removed(st, s, p, k, link, total).index
    ensures var st' := Removed(st, s, p, k, link, total);
      st'.index[id] in st'.live && st'.index[id] !in held && st'.Named(st'.index[id], id)
  {
    NodeInList(st, held, s, p, k);
    assert st.Named(st.index[id], id);
    RemovedSame(st, held, s, p, k, link, st.index[id], total);
  }

  /** Unlinking, unindexing and freeing an order takes it out of every view, and nothing else. */
  lemma RemovedConsistent(st: Store, held: set<nat>, s: Side, p: Tick, k: nat, link: Ptr, total: nat)
    requires CanRemove(st, held, s, p, k)
    requires total == Depth(st.Queue(s, p)[..k] + st.Queue(s, p)[k + 1..])
    ensures var st' := Removed(st, s, p, k, link, total);
      && st'.Consistent(held) && SameQueues(st, st', s, p)
      && st'.Queue(s, p) == st.Queue(s, p)[..k] + st.Queue(s, p)[k + 1..]
  {
    var st' := Removed(st, s, p, k, link, total);
    RemovedLevels(st, held, s, p, k, link, st', total);
    RemovedMembers(st, held, s, p, k, link, st', total);
  }

  lemma RemovedMembers(st: Store, held: set<nat>, s: Side, p: Tick, k: nat, link: Ptr, st': Store, total: nat)
    requires CanRemove(st, held, s, p, k) && st' == Removed(st, s, p, k, link, total)
    ensures held <= st'.live
    ensures forall s': Side, p': Tick, c | c in st'.Lists(s')[p'] :: c in st'.live && c !in held
    ensures forall c | c in st'.live && c !in held :: st'.Rests(c)
    ensures forall id | id in st'.index ::
      st'.index[id] in st'.live && st'.index[id] !in held && st'.Named(st'.index[id], id)
  {
    NodeInList(st, held, s, p, k);
    forall s': Side, p': Tick, c | c in st'.Lists(s')[p']
      ensures c in st'.live && c !in held
    {
      RemovedInLive(st, held, s, p, k, link, s', p', c, total);
    }
    forall c | c in st'.live && c !in held
      ensures st'.Rests(c)
    {
      RemovedRests(st, held, s, p, k, link, c, total);
    }
    forall id | id in st'.index
      ensures st'.index[id] in st'.live && st'.index[id] !in held && st'.Named(st'.index[id], id)
    {
      RemovedIndex(st, held, s, p, k, link, id, total);
    }
  }

  // ----- taking a block for an incoming order, and giving it back

  ghost function Taken(st: Store, b: nat, n: Order): Store
    requires b < |st.mem|
  {
    st.(mem := st.mem[b := Data(n)], live := st.live + {b})
  }

  ghost function Released(st: Store, b: nat, link: Ptr): Store
    requires b < |st.mem|
  {
    st.(mem := st.mem[b := Link(link)], live := st.live - {b})
  }

  /** Writing a block that no list uses changes no view. */
  lemma UnlistedConsistent(st: Store, b: nat, x: Block<Order>, held: set<nat>, st': Store, held': set<nat>)
    requires st.Consistent(held) && b < |st.mem| && held <= {b} && held' <= {b}
    requires b !in st.live || b in held
    requires st' == st.(mem := st.mem[b := x], live := st.live - held + held')
    ensures st'.Consistent(held')
    ensures forall s: Side, p: Tick :: st'.Queue(s, p) == st.Queue(s, p)
  {
    forall s: Side, p: Tick
      ensures st'.LevelOk(s, p) && st'.Queue(s, p) == st.Queue(s, p)
    {
      SameLevelOk(st, held, st', s, p);
    }
    forall s: Side, p: Tick, c | c in st'.Lists(s)[p]
      ensures c in st'.live && c !in held'
    {
      assert c in st.Lists(s)[p];
    }
    forall c | c in st'.live && c !in held'
      ensures st'.Rests(c)
    {
      assert st.Rests(c);
    }
    forall id | id in st'.index
      ensures st'.Named(st'.index[id], id)
    {
      assert st.Named(st.index[id], id);
    }
  }

  lemma TakenConsistent(st: Store, b: nat, n: Order)
    requires st.Consistent({}) && b < |st.mem| && b !in st.live
    ensures Taken(st, b, n).Consistent({b})
    ensures forall s: Side, p: Tick :: Taken(st, b, n).Queue(s, p) == st.Queue(s, p)
  {
    assert st.live - {} + {b} == st.live + {b};
    UnlistedConsistent(st, b, Data(n), {}, Taken(st, b, n), {b});
  }

  lemma ReleasedConsistent(st: Store, b: nat, link: Ptr)
    requires st.Consistent({b}) && b < |st.mem|
    ensures Released(st, b, link).Consistent({})
    ensures forall s: Side, p: Tick :: Released(st, b, link).Queue(s, p) == st.Queue(s, p)
  {
    assert st.live - {b} + {} == st.live - {b};
    UnlistedConsistent(st, b, Link(link), {b}, Released(st, b, link), {});
  }

  // ----- the held order comes to rest

  /** The held order and the order it comes to rest behind are live. */
  ghost predicate RestReady(st: Store, s: Side, p: Tick, b: nat) {
    && st.Shaped() && b < |st.mem| && b in st.live && st.mem[b].Data? && st.Levels(s)[p].tail != Ref(b)
    && (st.Levels(s)[p].tail.Ref? ==>
          var t := st.Levels(s)[p].tail.block; t < |st.mem| && t in st.live && st.mem[t].Data?)
  }

  ghost function Rested(st: Store, s: Side, p: Tick, b: nat, total: nat): (r: Store)
    requires RestReady(st, s, p, b)
  {
    var lv, n := st.Levels(s)[p], st.mem[b].value;
    Patched(Put(st, s, p, WithTotal(LevelAppended(lv, b), total), st.Lists(s)[p] + [b]),
            Appended(st.mem, lv, b), st.live, st.index[n.id := b])
  }

  /** The held order is fresh, unlinked and belongs to this level. */
  ghost predicate Fresh(st: Store, s: Side, p: Tick, b: nat) {
    && b < |st.mem| && st.mem[b].Data?
    && var n := st.mem[b].value;
       n.side == s && n.price == p && n.prev == Null && n.next == Null && n.id !in st.index
  }

  ghost predicate CanRest(st: Store, s: Side, p: Tick, b: nat) {
    st.Consistent({b}) && Fresh(st, s, p, b) && RestReady(st, s, p, b)
  }

  lemma CanAppend(st: Store, s: Side, p: Tick, b: nat)
    requires st.Consistent({b}) && Fresh(st, s, p, b)
    ensures CanRest(st, s, p, b) && Appendable(st.mem, st.Levels(s)[p], st.Lists(s)[p], s, p, b)
    ensures st.Levels(s)[p].tail.Ref? ==> st.Levels(s)[p].tail.block in st.Lists(s)[p]
  {
    assert st.LevelOk(s, p);
    AppendKeepsList(st.mem, st.Levels(s)[p], st.Lists(s)[p], s, p, b);
    var list := st.Lists(s)[p];
    assert list != [] ==> list[|list| - 1] in list;
  }

  lemma RestedList(mem: Memory, lv: PriceLevel, list: seq<nat>, s: Side, p: nat, b: nat, total: nat)
    requires Appendable(mem, lv, list, s, p, b) && lv.total == Depth(View(mem, list))
    requires total == Depth(View(mem, list) + [EntryAt(mem, b)])
    requires lv.tail != Ref(b) && (lv.tail.Ref? ==> lv.tail.block < |mem| && mem[lv.tail.block].Data?)
    ensures var n := mem[b].value;
      var mem' := Appended(mem, lv, b);
      var lv' := WithTotal(LevelAppended(lv, b), total);
      && Linked(mem', lv', list + [b], s, p)
      && View(mem', list + [b]) == View(mem, list) + [Entry(n.id, n.client, n.qty)]
      && lv'.total == Depth(View(mem', list + [b]))
  {
    AppendKeepsList(mem, lv, list, s, p, b);
  }

  lemma RestedHere(st: Store, s: Side, p: Tick, b: nat, st': Store, total: nat)
    requires CanRest(st, s, p, b) && st' == Rested(st, s, p, b, total)
    requires total == Depth(st.Queue(s, p) + [EntryAt(st.mem, b)])
    ensures st'.LevelOk(s, p)
    ensures var n := st.mem[b].value; st'.Queue(s, p) == st.Queue(s, p) + [Entry(n.id, n.client, n.qty)]
  {
    CanAppend(st, s, p, b);
    var lv, list := st.Levels(s)[p], st.Lists(s)[p];
    assert st.LevelOk(s, p);
    RestedList(st.mem, lv, list, s, p, b, total);
    var lv' := WithTotal(LevelAppended(lv, b), total);
    assert st'.mem == Appended(st.mem, lv, b) && st'.Levels(s)[p] == lv' && st'.Lists(s)[p] == list + [b];
    assert Linked(st'.mem, lv', list + [b], s, p);
    assert lv'.total == Depth(View(st'.mem, list + [b]));
  }

  lemma RestedSame(st: Store, s: Side, p: Tick, b: nat, c: nat, total: nat)
    requires CanRest(st, s, p, b) && c < |st.mem|
    ensures var st' := Rested(st, s, p, b, total);
      && |st'.mem| == |st.mem|
      && (c !in st.Lists(s)[p] && c != b ==> st'.mem[c] == st.mem[c])
      && (st.mem[c].Data? ==> SameOrder(st.mem, st'.mem, c))
  {
    CanAppend(st, s, p, b);
  }

  lemma RestedLevels(st: Store, s: Side, p: Tick, b: nat, st': Store, total: nat)
    requires CanRest(st, s, p, b) && st' == Rested(st, s, p, b, total)
    requires total == Depth(st.Queue(s, p) + [EntryAt(st.mem, b)])
    ensures (forall s': Side, p': Tick :: st'.LevelOk(s', p')) && SameQueues(st, st', s, p)
  {
    CanAppend(st, s, p, b);
    assert SameElsewhere(st, {b}, st', s, p);
    forall s': Side, p': Tick
      ensures st'.LevelOk(s', p') && (!(s' == s && p' == p) ==> st'.Queue(s', p') == st.Queue(s', p'))
    {
      if s' == s && p' == p {
        RestedHere(st, s, p, b, st', total);
      } else {
        ElsewhereOk(st, {b}, st', s, p, s', p');
      }
    }
  }

  lemma RestedRests(st: Store, s: Side, p: Tick, b: nat, c: nat, total: nat)
    requires CanRest(st, s, p, b) && c in st.live
    ensures Rested(st, s, p, b, total).Rests(c)
  {
    CanAppend(st, s, p, b);
    var st' := Rested(st, s, p, b, total);
    if c == b {
      RestedSame(st, s, p, b, b, total);
      assert (st.Lists(s)[p] + [b])[|st.Lists(s)[p]|] == b;
    } else {
      assert st.Rests(c);
      RestedSame(st, s, p, b, c, total);
      var n := st.mem[c].value;
      assert c in st'.Lists(n.side)[n.price];
    }
  }

  /** Appending and indexing the held order puts it into every view, and changes nothing else. */
  lemma RestedConsistent(st: Store, s: Side, p: Tick, b: nat, total: nat)
    requires CanRest(st, s, p, b)
    requires total == Depth(st.Queue(s, p) + [EntryAt(st.mem, b)])
    ensures var st' := Rested(st, s, p, b, total);
      var n := st.mem[b].value;
      && st'.Consistent({}) && SameQueues(st, st', s, p)
      && st'.Queue(s, p) == st.Queue(s, p) + [Entry(n.id, n.client, n.qty)]
  {
    var st' := Rested(st, s, p, b, total);
    CanAppend(st, s, p, b);
    RestedHere(st, s, p, b, st', total);
    RestedLevels(st, s, p, b, st', total);
    forall s': Side, p': Tick, c | c in st'.Lists(s')[p']
      ensures c in st'.live
    {
      assert c == b || c in st.Lists(s')[p'];
    }
    forall c | c in st'.live
      ensures st'.Rests(c)
    {
      RestedRests(st, s, p, b, c, total);
    }
    forall id | id in st'.index
      ensures st'.index[id] in st'.live && st'.Named(st'.index[id], id)
    {
      RestedSame(st, s, p, b, b, total);
      if id != st.mem[b].value.id {
        assert st.Named(st.index[id], id);
        RestedSame(st, s, p, b, st.index[id], total);
      }
    }
  }

  // ----- counting

  lemma {:induction false} InjectiveSize(m: map<Word, nat>, live: set<nat>)
    requires forall id | id in m :: m[id] in live
    requires forall id, id' | id in m && id' in m && id != id' :: m[id] != m[id']
    requires forall b | b in live :: b in m.Values
    ensures |m| == |live|
    decreases |live|
  {
    if live == {} {
      assert m.Keys == {};
    } else {
      var b :| b in live;
      var id :| id in m && m[id] == b;
      var m' := m - {id};
      forall c | c in live - {b}
        ensures c in m'.Values
      {
        var id' :| id' in m && m[id'] == c;
        assert id' in m';
      }
      InjectiveSize(m', live - {b});
      assert m.Keys == m'.Keys + {id};
    }
  }

  lemma IndexInjective(st: Store, held: set<nat>, id: Word, id': Word)
    requires st.Consistent(held) && id in st.index && id' in st.index && st.index[id] == st.index[id']
    ensures id == id'
  {
    assert st.Named(st.index[id], id) && st.Named(st.index[id'], id');
  }

  /** As many blocks are live as orders are indexed, besides the held ones. */
  lemma LiveCount(st: Store, held: set<nat>)
    requires st.Consistent(held)
    ensures |st.live| == |st.index| + |held|
  {
    var index, resting := st.index, st.live - held;
    forall b | b in resting
      ensures b in index.Values
    {
      assert st.Rests(b);
    }
    forall id, id' | id in index && id' in index && id != id'
      ensures index[id] != index[id']
    {
      if index[id] == index[id'] { IndexInjective(st, held, id, id'); }
    }
    InjectiveSize(index, resting);
    assert st.live == resting + held;
  }

  /** The index holds exactly the resting ids. */
  lemma IndexIsIds(st: Store, id: Word)
    requires st.Consistent({})
    ensures id in st.index <==> id in WallIds(st.Wall(Yes)) + WallIds(st.Wall(No))
  {
    if id in st.index {
      var b := st.index[id];
      assert st.Rests(b);
      var n := st.mem[b].value;
      var list := st.Lists(n.side)[n.price];
      var i :| 0 <= i < |list| && list[i] == b;
      assert st.Wall(n.side)[n.price][i].id == id;
    }
    if id in WallIds(st.Wall(Yes)) {
      var p, i :| 0 <= p < LEVELS && 0 <= i < |st.Wall(Yes)[p]| && st.Wall(Yes)[p][i].id == id;
      NodeInList(st, {}, Yes, p, i);
    }
    if id in WallIds(st.Wall(No)) {
      var p, i :| 0 <= p < LEVELS && 0 <= i < |st.Wall(No)[p]| && st.Wall(No)[p][i].id == id;
      NodeInList(st, {}, No, p, i);
    }
  }
}
