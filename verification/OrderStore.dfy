/** The memory of the matching engine as a value: order nodes in pool blocks, linked into one
    list per price level, the set of live blocks and the index from order id to block. */
module OrderStore {
  import opened Machine
  import opened Pools
  import opened PriceTime
  import opened LevelBook

  datatype Order = Order(id: Word, client: nat, side: Side, price: nat, qty: nat, ts: nat, prev: Ptr, next: Ptr)

  datatype PriceLevel = PriceLevel(head: Ptr, tail: Ptr, total: nat)

  type Memory = seq<Block<Order>>

  function WithTotal(lv: PriceLevel, total: nat): PriceLevel {
    PriceLevel(lv.head, lv.tail, total)
  }

  /** A uint32_t total that has moved by x. */
  function Moved(total: nat, x: int): nat {
    (total + x) % WORD32
  }

  function NodeAt(mem: Memory, b: nat): Order
    requires b < |mem| && mem[b].Data?
  {
    mem[b].value
  }

  // ----- one list

  /** Position i of a level's list holds an order of that side and price with matching links. */
  ghost predicate LinkedAt(mem: Memory, list: seq<nat>, i: int, s: Side, p: nat)
    requires 0 <= i < |list|
  {
    && list[i] < |mem| && mem[list[i]].Data?
    && var n := mem[list[i]].value;
       n.side == s && n.price == p && n.prev == At(list, i - 1) && n.next == At(list, i + 1)
  }

  /** A level's list is doubly linked from head to tail, and no block is in it twice. */
  ghost predicate Linked(mem: Memory, lv: PriceLevel, list: seq<nat>, s: Side, p: nat) {
    && lv.head == At(list, 0) && lv.tail == At(list, |list| - 1) && NoDuplicates(list)
    && forall i | 0 <= i < |list| :: LinkedAt(mem, list, i, s, p)
  }

  ghost function EntryAt(mem: Memory, b: nat): Entry {
    if b < |mem| && mem[b].Data? then Entry(mem[b].value.id, mem[b].value.client, mem[b].value.qty) else Entry(0, 0, 0)
  }

  /** The queue a list stands for. */
  ghost function View(mem: Memory, list: seq<nat>): (r: Level)
    ensures |r| == |list| && forall i {:trigger r[i]} | 0 <= i < |list| :: r[i] == EntryAt(mem, list[i])
  {
    seq(|list|, i requires 0 <= i < |list| => EntryAt(mem, list[i]))
  }

  lemma LinkedFrame(mem: Memory, mem': Memory, lv: PriceLevel, list: seq<nat>, s: Side, p: nat)
    requires Linked(mem, lv, list, s, p) && |mem| == |mem'|
    requires forall i | 0 <= i < |list| :: list[i] < |mem| && mem'[list[i]] == mem[list[i]]
    ensures Linked(mem', lv, list, s, p) && View(mem', list) == View(mem, list)
  {
    forall i | 0 <= i < |list|
      ensures LinkedAt(mem', list, i, s, p)
    {
      assert LinkedAt(mem, list, i, s, p);
    }
  }

  /** Changing a quantity leaves the links alone. */
  function SetQty(mem: Memory, b: nat, qty: nat): (r: Memory)
    requires b < |mem| && mem[b].Data?
    ensures |r| == |mem|
  {
    var n := mem[b].value;
    mem[b := Data(Order(n.id, n.client, n.side, n.price, qty, n.ts, n.prev, n.next))]
  }

  lemma LinkedSetQty(mem: Memory, lv: PriceLevel, list: seq<nat>, s: Side, p: nat, k: nat, qty: nat)
    requires Linked(mem, lv, list, s, p) && k < |list|
    ensures LinkedAt(mem, list, k, s, p)
    ensures Linked(SetQty(mem, list[k], qty), lv, list, s, p)
    ensures View(SetQty(mem, list[k], qty), list) == View(mem, list)[k := EntryAt(mem, list[k]).(qty := qty)]
  {
    assert LinkedAt(mem, list, k, s, p);
    var mem' := SetQty(mem, list[k], qty);
    forall i | 0 <= i < |list|
      ensures LinkedAt(mem', list, i, s, p)
    {
      assert LinkedAt(mem, list, i, s, p);
    }
  }

  // ----- unlinking

  function SetNext(mem: Memory, at: Ptr, next: Ptr): (r: Memory)
    requires at.Ref? ==> at.block < |mem| && mem[at.block].Data?
    ensures |r| == |mem| && forall b | 0 <= b < |mem| && at != Ref(b) :: r[b] == mem[b]
    ensures at.Ref? ==> r[at.block] == Data(mem[at.block].value.(next := next))
  {
    if at.Ref? then mem[at.block := Data(mem[at.block].value.(next := next))] else mem
  }

  function SetPrev(mem: Memory, at: Ptr, prev: Ptr): (r: Memory)
    requires at.Ref? ==> at.block < |mem| && mem[at.block].Data?
    ensures |r| == |mem| && forall b | 0 <= b < |mem| && at != Ref(b) :: r[b] == mem[b]
    ensures at.Ref? ==> r[at.block] == Data(mem[at.block].value.(prev := prev))
  {
    if at.Ref? then mem[at.block := Data(mem[at.block].value.(prev := prev))] else mem
  }

  ghost predicate Unlinkable(mem: Memory, n: Order) {
    && (n.prev.Ref? ==> n.prev.block < |mem| && mem[n.prev.block].Data?)
    && (n.next.Ref? ==> n.next.block < |mem| && mem[n.next.block].Data?)
  }

  /** The neighbours of n point past it. */
  ghost function Unlinked(mem: Memory, n: Order): (r: Memory)
    requires Unlinkable(mem, n)
    ensures |r| == |mem|
  {
    SetPrev(SetNext(mem, n.prev, n.next), n.next, n.prev)
  }

  function LevelUnlinked(lv: PriceLevel, n: Order): PriceLevel {
    PriceLevel(if n.prev == Null then n.next else lv.head, if n.next == Null then n.prev else lv.tail, lv.total)
  }

  lemma UnlinkableAt(mem: Memory, lv: PriceLevel, list: seq<nat>, s: Side, p: nat, k: nat)
    requires Linked(mem, lv, list, s, p) && k < |list|
    ensures LinkedAt(mem, list, k, s, p) && Unlinkable(mem, NodeAt(mem, list[k]))
  {
    assert LinkedAt(mem, list, k, s, p);
    assert k > 0 ==> LinkedAt(mem, list, k - 1, s, p);
    assert k + 1 < |list| ==> LinkedAt(mem, list, k + 1, s, p);
  }

  /** What unlinking changes: the neighbours' links, and nothing else. */
  lemma UnlinkedAt(mem: Memory, lv: PriceLevel, list: seq<nat>, s: Side, p: nat, k: nat, b: nat)
    requires Linked(mem, lv, list, s, p) && k < |list| && b < |mem|
    ensures LinkedAt(mem, list, k, s, p) && Unlinkable(mem, NodeAt(mem, list[k]))
    ensures var r := Unlinked(mem, NodeAt(mem, list[k]));
      && (k > 0 && b == list[k - 1] ==> mem[b].Data? && r[b] == Data(mem[b].value.(next := At(list, k + 1))))
      && (k + 1 < |list| && b == list[k + 1] ==> mem[b].Data? && r[b] == Data(mem[b].value.(prev := At(list, k - 1))))
      && (!(k > 0 && b == list[k - 1]) && !(k + 1 < |list| && b == list[k + 1]) ==> r[b] == mem[b])
  {
    UnlinkableAt(mem, lv, list, s, p, k);
    assert k > 0 ==> LinkedAt(mem, list, k - 1, s, p);
    assert k + 1 < |list| ==> LinkedAt(mem, list, k + 1, s, p);
    assert 0 < k < |list| - 1 ==> list[k - 1] != list[k + 1];
  }

  lemma UnlinkKeepsAt(mem: Memory, lv: PriceLevel, list: seq<nat>, s: Side, p: nat, k: nat, i: nat)
    requires Linked(mem, lv, list, s, p) && k < |list| && i < |list| - 1
    ensures LinkedAt(mem, list, k, s, p) && Unlinkable(mem, NodeAt(mem, list[k]))
    ensures var mem' := Unlinked(mem, NodeAt(mem, list[k]));
      LinkedAt(mem', Omit(list, k), i, s, p) && EntryAt(mem', Omit(list, k)[i]) == EntryAt(mem, Omit(list, k)[i])
  {
    var j := if i < k then i else i + 1;
    assert LinkedAt(mem, list, j, s, p);
    UnlinkedAt(mem, lv, list, s, p, k, list[j]);
  }

  lemma CutNoDuplicates(list: seq<nat>, k: nat)
    requires NoDuplicates(list) && k < |list|
    ensures NoDuplicates(Omit(list, k))
  {
  }

  lemma UnlinkKeepsEnds(mem: Memory, lv: PriceLevel, list: seq<nat>, s: Side, p: nat, k: nat)
    requires Linked(mem, lv, list, s, p) && k < |list|
    ensures LinkedAt(mem, list, k, s, p)
    ensures var lv' := LevelUnlinked(lv, NodeAt(mem, list[k]));
      lv'.head == At(Omit(list, k), 0) && lv'.tail == At(Omit(list, k), |list| - 2)
  {
    assert LinkedAt(mem, list, k, s, p);
  }

  lemma CutView(mem: Memory, mem': Memory, list: seq<nat>, k: nat)
    requires k < |list|
    requires forall i | 0 <= i < |list| - 1 :: EntryAt(mem', Omit(list, k)[i]) == EntryAt(mem, Omit(list, k)[i])
    ensures View(mem', Omit(list, k)) == View(mem, list)[..k] + View(mem, list)[k + 1..]
  {
    var v, w := View(mem', Omit(list, k)), View(mem, list)[..k] + View(mem, list)[k + 1..];
    forall i | 0 <= i < |list| - 1
      ensures v[i] == w[i]
    {
    }
  }

  /** Unlinking takes one order out of the queue and keeps the rest in order. */
  lemma UnlinkKeepsList(mem: Memory, lv: PriceLevel, list: seq<nat>, s: Side, p: nat, k: nat)
    requires Linked(mem, lv, list, s, p) && k < |list|
    ensures LinkedAt(mem, list, k, s, p) && Unlinkable(mem, NodeAt(mem, list[k]))
    ensures var n := NodeAt(mem, list[k]);
      && Linked(Unlinked(mem, n), LevelUnlinked(lv, n), Omit(list, k), s, p)
      && View(Unlinked(mem, n), Omit(list, k)) == View(mem, list)[..k] + View(mem, list)[k + 1..]
  {
    UnlinkableAt(mem, lv, list, s, p, k);
    var mem', list' := Unlinked(mem, NodeAt(mem, list[k])), Omit(list, k);
    forall i | 0 <= i < |list'|
      ensures LinkedAt(mem', list', i, s, p) && EntryAt(mem', list'[i]) == EntryAt(mem, list'[i])
    {
      UnlinkKeepsAt(mem, lv, list, s, p, k, i);
    }
    CutNoDuplicates(list, k);
    UnlinkKeepsEnds(mem, lv, list, s, p, k);
    CutView(mem, mem', list, k);
  }

  // ----- appending

  /** The old tail, if any, and the new node point at each other. */
  ghost function Appended(mem: Memory, lv: PriceLevel, b: nat): (r: Memory)
    requires b < |mem| && mem[b].Data? && lv.tail != Ref(b)
    requires lv.tail.Ref? ==> lv.tail.block < |mem| && mem[lv.tail.block].Data?
    ensures |r| == |mem|
  {
    if lv.tail == Null then mem
    else SetNext(mem[b := Data(mem[b].value.(prev := lv.tail))], lv.tail, Ref(b))
  }

  function LevelAppended(lv: PriceLevel, b: nat): PriceLevel {
    PriceLevel(if lv.tail == Null then Ref(b) else lv.head, Ref(b), lv.total)
  }

  ghost predicate Appendable(mem: Memory, lv: PriceLevel, list: seq<nat>, s: Side, p: nat, b: nat) {
    && Linked(mem, lv, list, s, p) && b < |mem| && b !in list && mem[b].Data?
    && mem[b].value.side == s && mem[b].value.price == p && mem[b].value.prev == Null && mem[b].value.next == Null
  }

  lemma AppendKeepsAt(mem: Memory, lv: PriceLevel, list: seq<nat>, s: Side, p: nat, b: nat, i: nat)
    requires Appendable(mem, lv, list, s, p, b) && i <= |list|
    ensures lv.tail != Ref(b) && (lv.tail.Ref? ==> lv.tail.block < |mem| && mem[lv.tail.block].Data?)
    ensures var mem' := Appended(mem, lv, b);
      LinkedAt(mem', list + [b], i, s, p) && EntryAt(mem', (list + [b])[i]) == EntryAt(mem, (list + [b])[i])
  {
    assert list != [] ==> LinkedAt(mem, list, |list| - 1, s, p);
    if i < |list| {
      assert LinkedAt(mem, list, i, s, p);
      assert i < |list| - 1 ==> list[i] != list[|list| - 1];
    }
  }

  /** Appending puts one order at the back of the queue. */
  lemma AppendKeepsList(mem: Memory, lv: PriceLevel, list: seq<nat>, s: Side, p: nat, b: nat)
    requires Appendable(mem, lv, list, s, p, b)
    ensures lv.tail != Ref(b) && (lv.tail.Ref? ==> lv.tail.block < |mem| && mem[lv.tail.block].Data?)
    ensures Linked(Appended(mem, lv, b), LevelAppended(lv, b), list + [b], s, p)
    ensures View(Appended(mem, lv, b), list + [b]) == View(mem, list) + [EntryAt(mem, b)]
  {
    AppendKeepsAt(mem, lv, list, s, p, b, |list|);
    var mem', list' := Appended(mem, lv, b), list + [b];
    forall i | 0 <= i < |list'|
      ensures LinkedAt(mem', list', i, s, p) && EntryAt(mem', list'[i]) == EntryAt(mem, list'[i])
    {
      AppendKeepsAt(mem, lv, list, s, p, b, i);
    }
  }

  // ----- the whole store

  datatype Store = Store(mem: Memory, bids: seq<PriceLevel>, asks: seq<PriceLevel>,
                         bidLists: seq<seq<nat>>, askLists: seq<seq<nat>>,
                         live: set<nat>, index: map<Word, nat>)
  {
    ghost function Levels(s: Side): seq<PriceLevel> {
      if s == Yes then bids else asks
    }

    ghost function Lists(s: Side): seq<seq<nat>> {
      if s == Yes then bidLists else askLists
    }

    ghost predicate Shaped() {
      |bids| == |asks| == |bidLists| == |askLists| == LEVELS
    }

    ghost function Queue(s: Side, p: Tick): Level
      requires Shaped()
    {
      View(mem, Lists(s)[p])
    }

    ghost function Wall(s: Side): (w: Wall)
      requires Shaped()
      ensures forall p: Tick :: w[p] == Queue(s, p)
    {
      seq(LEVELS, p requires 0 <= p < LEVELS => Queue(s, p))
    }

    /** A level's list is sound and its 32-bit total is that of its queue. */
    ghost predicate LevelOk(s: Side, p: Tick)
      requires Shaped()
    {
      Linked(mem, Levels(s)[p], Lists(s)[p], s, p) && Levels(s)[p].total == Depth(Queue(s, p))
    }

    /** The block holds an order that is in the list of its own side and price, and is found by its id. */
    ghost predicate Rests(b: nat)
      requires Shaped()
    {
      && b < |mem| && mem[b].Data?
      && var n := mem[b].value;
         n.price < LEVELS && b in Lists(n.side)[n.price] && n.id in index && index[n.id] == b
    }

    /** The block holds the order with this id. */
    ghost predicate Named(b: nat, id: Word) {
      b < |mem| && mem[b].Data? && mem[b].value.id == id
    }

    /** All views of the book agree: lists, totals, live blocks and index. The block `held`
        is live but belongs to an order that is still being matched. */
    ghost predicate Consistent(held: set<nat>)
    {
      && Shaped() && held <= live
      && (forall s: Side, p: Tick :: LevelOk(s, p))
      && (forall s: Side, p: Tick, b | b in Lists(s)[p] :: b in live && b !in held)
      && (forall b | b in live && b !in held :: Rests(b))
      && (forall id | id in index :: index[id] in live && index[id] !in held && Named(index[id], id))
    }
  }

  // ----- arithmetic of totals

  lemma {:induction false} SumSplit(a: Level, b: Level)
    ensures Sum(a + b) == Sum(a) + Sum(b)
  {
    if a == [] {
      assert a + b == b;
    } else {
      SumSplit(a[1..], b);
      assert (a + b)[1..] == a[1..] + b;
    }
  }

  lemma SumWithout(level: Level, k: nat)
    requires k < |level|
    ensures Sum(level[..k] + level[k + 1..]) == Sum(level) - level[k].qty
  {
    SumSplit(level[..k], level[k..]);
    SumSplit(level[..k], level[k + 1..]);
    assert level == level[..k] + level[k..] && level[k..][1..] == level[k + 1..];
  }

  lemma SumFront(level: Level, qty: nat)
    requires level != []
    ensures Sum(level[0 := level[0].(qty := qty)]) == Sum(level) - level[0].qty + qty
  {
    assert level[0 := level[0].(qty := qty)][1..] == level[1..];
  }

  lemma SumBack(level: Level, e: Entry)
    ensures Sum(level + [e]) == Sum(level) + e.qty
  {
    SumSplit(level, [e]);
    assert [e][1..] == [];
  }

  lemma TotalShift(sum: nat, x: int)
    requires sum + x >= 0
    ensures (sum % WORD32 + x) % WORD32 == (sum + x) % WORD32
  {
    var q := sum / WORD32;
    assert sum % WORD32 + x == sum + x + WORD32 * (-q);
    ModShift(sum + x, WORD32, -q);
  }

  // ----- what one level's change leaves alone

  lemma OwnLevel(st: Store, held: set<nat>, s: Side, p: Tick, b: nat)
    requires st.Consistent(held) && b in st.Lists(s)[p]
    ensures b < |st.mem| && st.mem[b].Data? && st.mem[b].value.side == s && st.mem[b].value.price == p
  {
    assert st.LevelOk(s, p);
    var i :| 0 <= i < |st.Lists(s)[p]| && st.Lists(s)[p][i] == b;
    assert LinkedAt(st.mem, st.Lists(s)[p], i, s, p);
  }

  /** The level (s, p) is as in `st`, in lists, totals and nodes. */
  ghost predicate SameLevel(st: Store, st': Store, s: Side, p: Tick)
    requires st.Shaped() && st'.Shaped()
  {
    && st'.Levels(s)[p] == st.Levels(s)[p] && st'.Lists(s)[p] == st.Lists(s)[p] && |st'.mem| == |st.mem|
    && forall b | b in st.Lists(s)[p] :: b < |st.mem| ==> st'.mem[b] == st.mem[b]
  }

  lemma SameLevelOk(st: Store, held: set<nat>, st': Store, s: Side, p: Tick)
    requires st.Consistent(held) && st'.Shaped() && SameLevel(st, st', s, p)
    ensures st'.LevelOk(s, p) && st'.Queue(s, p) == st.Queue(s, p)
  {
    var list := st.Lists(s)[p];
    assert st.LevelOk(s, p);
    forall i | 0 <= i < |list|
      ensures list[i] < |st.mem| && st'.mem[list[i]] == st.mem[list[i]]
    {
      assert list[i] in list;
      OwnLevel(st, held, s, p, list[i]);
    }
    LinkedFrame(st.mem, st'.mem, st.Levels(s)[p], list, s, p);
  }

  /** Outside the level (s0, p0) the two stores agree. */
  ghost predicate SameElsewhere(st: Store, held: set<nat>, st': Store, s0: Side, p0: Tick)
    requires st.Shaped() && st'.Shaped()
  {
    && |st'.mem| == |st.mem|
    && (forall s: Side, p: Tick | !(s == s0 && p == p0) ::
          st'.Levels(s)[p] == st.Levels(s)[p] && st'.Lists(s)[p] == st.Lists(s)[p])
    && (forall b | b in st.live && b !in held && b < |st.mem| && b !in st.Lists(s0)[p0] :: st'.mem[b] == st.mem[b])
  }

  lemma ElsewhereOk(st: Store, held: set<nat>, st': Store, s0: Side, p0: Tick, s: Side, p: Tick)
    requires st.Consistent(held) && st'.Shaped() && SameElsewhere(st, held, st', s0, p0) && !(s == s0 && p == p0)
    ensures st'.LevelOk(s, p) && st'.Queue(s, p) == st.Queue(s, p) && SameLevel(st, st', s, p)
  {
    forall b | b in st.Lists(s)[p]
      ensures b < |st.mem| && st'.mem[b] == st.mem[b]
    {
      OwnLevel(st, held, s, p, b);
      if b in st.Lists(s0)[p0] {
        OwnLevel(st, held, s0, p0, b);
      }
    }
    SameLevelOk(st, held, st', s, p);
  }
}
