/** Signal and OrderManager of src/strategy: the quote wanted for a book, and the orders sent to get
    from the live ones to it. The venue that receives the orders is the independent reference. */
module Strategies {
  import opened Machine
  import opened PriceTime

  const MIN_SPREAD := 3
  const DEFAULT_QTY := 10

  type Byte = x: nat | x < 256
  type Count = x: nat | x < WORD32

  datatype Target = Target(active: bool, yesPrice: Byte, noPrice: Byte, qty: Count) {
    function Price(s: Side): Byte {
      if s == Yes then yesPrice else noPrice
    }
  }

  const INACTIVE := Target(false, 0, 0, 0)

  datatype Action = Place(side: Side, price: Byte, qty: Count, clientId: Word) | Cancel(side: Side, clientId: Word)

  datatype OrderState = OrderState(open: bool, price: Byte, qty: Count, clientId: Word)

  const CLOSED := OrderState(false, 0, 0, 0)

  // ----- the signal

  /** Signal::evaluate on the two best bids. */
  function Evaluate(y: Byte, n: Byte): Target {
    if y == 0 || n == 0 then INACTIVE
    else if 100 - y - n < MIN_SPREAD then INACTIVE
    else Target(true, y + 1, n + 1, DEFAULT_QTY)
  }

  /** A quote is made exactly when both sides are bid and bidding one more on each costs at most 99
      together; it then betters both bids and stays below the price at which each would trade. */
  lemma QuoteIsSafe(y: Byte, n: Byte)
    ensures var t := Evaluate(y, n);
      && (t.active <==> y != 0 && n != 0 && (y + 1) + (n + 1) <= 99)
      && (t.active ==> t.yesPrice > y && t.noPrice > n && t.yesPrice + t.noPrice <= 99
                       && t.yesPrice < 100 - n && t.noPrice < 100 - y && t.qty == 10)
      && (!t.active ==> t == Target(false, 0, 0, 0))
  {
  }

  // ----- the order manager

  datatype Manager = Manager(yes: OrderState, no: OrderState, nextId: Word) {
    function Side(s: Side): OrderState {
      if s == Yes then yes else no
    }
  }

  const START := Manager(CLOSED, CLOSED, 1)

  function Next(id: Word): Word {
    (id + 1) % WORD
  }

  /** reconcile_helper: the actions for one side, given the next free id. */
  function SideActions(cur: OrderState, s: Side, want: bool, price: Byte, qty: Count, id: Word): seq<Action> {
    if !cur.open && want then [Place(s, price, qty, id)]
    else if cur.open && !want then [Cancel(s, cur.clientId)]
    else if cur.open && want && price != cur.price then [Cancel(s, cur.clientId), Place(s, price, qty, id)]
    else []
  }

  function SideNext(cur: OrderState, want: bool, price: Byte, id: Word): Word {
    if want && (!cur.open || price != cur.price) then Next(id) else id
  }

  function Actions(m: Manager, t: Target): seq<Action> {
    SideActions(m.yes, Yes, t.active, t.yesPrice, t.qty, m.nextId) +
    SideActions(m.no, No, t.active, t.noPrice, t.qty, SideNext(m.yes, t.active, t.yesPrice, m.nextId))
  }

  function NextAfter(m: Manager, t: Target): Word {
    SideNext(m.no, t.active, t.noPrice, SideNext(m.yes, t.active, t.yesPrice, m.nextId))
  }

  /** on_place_sent and on_cancel_sent. */
  function Ack(m: Manager, a: Action): Manager {
    var cur := if a.Place? then OrderState(true, a.price, a.qty, a.clientId) else CLOSED;
    if a.side == Yes then Manager(cur, m.no, m.nextId) else Manager(m.yes, cur, m.nextId)
  }

  function AckAll(m: Manager, acts: seq<Action>): Manager
    decreases |acts|
  {
    if acts == [] then m else AckAll(Ack(m, acts[0]), acts[1..])
  }

  /** One reconciliation with every action acknowledged in order. */
  function Round(m: Manager, t: Target): Manager {
    AckAll(Manager(m.yes, m.no, NextAfter(m, t)), Actions(m, t))
  }

  // ----- the venue

  datatype Live = Live(side: Side, price: Byte, qty: Count)

  type Venue = map<Word, Live>

  function Receive(v: Venue, a: Action): Venue {
    if a.Place? then v[a.clientId := Live(a.side, a.price, a.qty)] else v - {a.clientId}
  }

  function ReceiveAll(v: Venue, acts: seq<Action>): Venue
    decreases |acts|
  {
    if acts == [] then v else ReceiveAll(Receive(v, acts[0]), acts[1..])
  }

  ghost predicate SideEmpty(v: Venue, s: Side) {
    forall id | id in v :: v[id].side != s
  }

  ghost predicate OnlyOn(v: Venue, s: Side, id: Word) {
    id in v && v[id].side == s && forall other | other in v && v[other].side == s :: other == id
  }

  /** A placement opens an empty side under the next id in sequence, which no live order has; a
      cancellation names the one live order of its side. */
  ghost predicate ProperOne(v: Venue, next: nat, a: Action) {
    && (a.Place? ==> SideEmpty(v, a.side) && a.clientId == next && forall id | id in v :: id < next)
    && (a.Cancel? ==> OnlyOn(v, a.side, a.clientId))
  }

  /** Each action is proper at its turn. */
  ghost predicate Proper(v: Venue, next: nat, acts: seq<Action>)
    decreases |acts|
  {
    acts != [] ==>
      var a := acts[0];
      && ProperOne(v, next, a)
      && Proper(Receive(v, a), if a.Place? then next + 1 else next, acts[1..])
  }

  /** The venue's orders of one side are what the manager thinks is open there. */
  ghost predicate SideAgrees(cur: OrderState, s: Side, v: Venue) {
    if cur.open then OnlyOn(v, s, cur.clientId) && v[cur.clientId] == Live(s, cur.price, cur.qty)
    else SideEmpty(v, s)
  }

  ghost predicate Agrees(m: Manager, v: Venue) {
    && SideAgrees(m.yes, Yes, v) && SideAgrees(m.no, No, v)
    && forall id | id in v :: id < m.nextId
  }

  /** The venue holds one order per side at the target's price and quantity, or none at all. */
  ghost predicate Reflects(v: Venue, t: Target) {
    forall s: Side :: SideReflects(v, t, s)
  }

  ghost predicate SideReflects(v: Venue, t: Target, s: Side) {
    if t.active then exists id :: OnlyOn(v, s, id) && v[id] == Live(s, t.Price(s), t.qty) else SideEmpty(v, s)
  }

  /** An open order is wanted at its own price but in another quantity. */
  predicate Resized(cur: OrderState, t: Target, s: Side) {
    cur.open && t.active && cur.price == t.Price(s) && cur.qty != t.qty
  }

  // ----- one side of a round

  lemma ActOne(m: Manager, v: Venue, next: nat, a: Action)
    ensures AckAll(m, [a]) == Ack(m, a) && ReceiveAll(v, [a]) == Receive(v, a)
    ensures Proper(v, next, [a]) <==> ProperOne(v, next, a)
    ensures Placed([a]) == if a.Place? then 1 else 0
  {
    assert [a][1..] == [];
  }

  lemma ActTwo(m: Manager, v: Venue, next: nat, c: Action, a: Action)
    requires c.Cancel?
    ensures AckAll(m, [c, a]) == Ack(Ack(m, c), a) && ReceiveAll(v, [c, a]) == Receive(Receive(v, c), a)
    ensures Proper(v, next, [c, a]) <==> ProperOne(v, next, c) && ProperOne(Receive(v, c), next, a)
    ensures Placed([c, a]) == if a.Place? then 1 else 0
  {
    assert [c, a][1..] == [a];
    ActOne(Ack(m, c), Receive(v, c), next, a);
  }

  function Settled(cur: OrderState, want: bool, price: Byte, qty: Count, id: Word): OrderState {
    if !want then (if cur.open then CLOSED else cur)
    else if cur.open && cur.price == price then cur
    else OrderState(true, price, qty, id)
  }

  /** The actions of one side are proper, keep the venue and the manager in step, and leave the
      other side's order alone. */
  lemma SideRound(m: Manager, v: Venue, s: Side, t: Target)
    requires Agrees(m, v) && m.nextId + 1 < WORD
    ensures var cur := m.Side(s);
      var acts := SideActions(cur, s, t.active, t.Price(s), t.qty, m.nextId);
      var v' := ReceiveAll(v, acts);
      var cur' := Settled(cur, t.active, t.Price(s), t.qty, m.nextId);
      var next := SideNext(cur, t.active, t.Price(s), m.nextId);
      && |acts| <= 2 && Proper(v, m.nextId, acts)
      && Agrees(if s == Yes then Manager(cur', m.no, next) else Manager(m.yes, cur', next), v')
  {
    var cur := m.Side(s);
    if cur.open && (!t.active || t.Price(s) != cur.price) {
      var c := Cancel(s, cur.clientId);
      var v1 := Receive(v, c);
      CancelKeeps(m, v, s);
      if t.active {
        PlaceKeeps(Ack(m, c), v1, s, t.Price(s), t.qty);
        ActTwo(m, v, m.nextId, c, Place(s, t.Price(s), t.qty, m.nextId));
      } else {
        ActOne(m, v, m.nextId, c);
      }
    } else if !cur.open && t.active {
      PlaceKeeps(m, v, s, t.Price(s), t.qty);
      ActOne(m, v, m.nextId, Place(s, t.Price(s), t.qty, m.nextId));
    }
  }

  lemma CancelKeeps(m: Manager, v: Venue, s: Side)
    requires Agrees(m, v) && m.Side(s).open
    ensures var c := Cancel(s, m.Side(s).clientId);
      OnlyOn(v, s, c.clientId) && Agrees(Ack(m, c), Receive(v, c))
  {
  }

  lemma PlaceKeeps(m: Manager, v: Venue, s: Side, price: Byte, qty: Count)
    requires Agrees(m, v) && !m.Side(s).open && m.nextId + 1 < WORD
    ensures var p := Place(s, price, qty, m.nextId); var m' := Ack(m, p);
      SideEmpty(v, s) && Agrees(Manager(m'.yes, m'.no, m.nextId + 1), Receive(v, p))
  {
  }

  lemma {:induction false} ProperConcat(v: Venue, next: nat, a: seq<Action>, b: seq<Action>, next': nat)
    requires Proper(v, next, a) && Proper(ReceiveAll(v, a), next', b) && next' == next + Placed(a)
    ensures Proper(v, next, a + b) && ReceiveAll(v, a + b) == ReceiveAll(ReceiveAll(v, a), b)
    decreases |a|
  {
    if a == [] {
      assert a + b == b;
    } else {
      assert (a + b)[1..] == a[1..] + b;
      ProperConcat(Receive(v, a[0]), if a[0].Place? then next + 1 else next, a[1..], b, next');
    }
  }

  ghost function Placed(acts: seq<Action>): nat {
    if acts == [] then 0 else (if acts[0].Place? then 1 else 0) + Placed(acts[1..])
  }

  lemma {:induction false} AckConcat(m: Manager, a: seq<Action>, b: seq<Action>)
    ensures AckAll(m, a + b) == AckAll(AckAll(m, a), b)
    decreases |a|
  {
    if a == [] {
      assert a + b == b;
    } else {
      assert (a + b)[1..] == a[1..] + b;
      AckConcat(Ack(m, a[0]), a[1..], b);
    }
  }

  lemma SideAcks(m: Manager, s: Side, want: bool, price: Byte, qty: Count, id: Word)
    requires id + 1 < WORD
    ensures var cur := m.Side(s);
      var acts := SideActions(cur, s, want, price, qty, id);
      var cur' := Settled(cur, want, price, qty, id);
      && AckAll(m, acts) == (if s == Yes then Manager(cur', m.no, m.nextId) else Manager(m.yes, cur', m.nextId))
      && SideNext(cur, want, price, id) == id + Placed(acts)
  {
    var cur := m.Side(s);
    var acts := SideActions(cur, s, want, price, qty, id);
    if |acts| == 2 {
      ActTwo(m, map[], 0, acts[0], acts[1]);
    } else if |acts| == 1 {
      ActOne(m, map[], 0, acts[0]);
    }
  }

  /** What a round leaves open. */
  lemma RoundIs(m: Manager, t: Target)
    requires m.nextId + 2 < WORD
    ensures var id := SideNext(m.yes, t.active, t.yesPrice, m.nextId);
      Round(m, t) == Manager(Settled(m.yes, t.active, t.yesPrice, t.qty, m.nextId),
                             Settled(m.no, t.active, t.noPrice, t.qty, id), NextAfter(m, t))
  {
    var id := SideNext(m.yes, t.active, t.yesPrice, m.nextId);
    var m0 := Manager(m.yes, m.no, NextAfter(m, t));
    var a := SideActions(m.yes, Yes, t.active, t.yesPrice, t.qty, m.nextId);
    var b := SideActions(m.no, No, t.active, t.noPrice, t.qty, id);
    SideAcks(m0, Yes, t.active, t.yesPrice, t.qty, m.nextId);
    SideAcks(AckAll(m0, a), No, t.active, t.noPrice, t.qty, id);
    AckConcat(m0, a, b);
  }

  /** A round sends at most four actions, all proper, and keeps the manager and the venue agreed. */
  lemma RoundIsProper(m: Manager, v: Venue, t: Target)
    requires Agrees(m, v) && m.nextId + 2 < WORD
    ensures var acts := Actions(m, t);
      && |acts| <= 4 && Proper(v, m.nextId, acts)
      && Agrees(Round(m, t), ReceiveAll(v, acts))
      && m.nextId <= Round(m, t).nextId <= m.nextId + 2
  {
    var id := SideNext(m.yes, t.active, t.yesPrice, m.nextId);
    var a := SideActions(m.yes, Yes, t.active, t.yesPrice, t.qty, m.nextId);
    var b := SideActions(m.no, No, t.active, t.noPrice, t.qty, id);
    SideRound(m, v, Yes, t);
    SideAcks(m, Yes, t.active, t.yesPrice, t.qty, m.nextId);
    SideRound(Manager(Settled(m.yes, t.active, t.yesPrice, t.qty, m.nextId), m.no, id), ReceiveAll(v, a), No, t);
    ProperConcat(v, m.nextId, a, b, id);
    RoundIs(m, t);
  }

  /** The actions of the yes side come before those of the no side. */
  lemma YesFirst(m: Manager, t: Target, i: nat, j: nat)
    requires i < j < |Actions(m, t)| && Actions(m, t)[i].side == No
    ensures Actions(m, t)[j].side == No
  {
  }

  /** After a round the venue shows the target's prices; it shows the whole target if and only if no
      open order was wanted at its own price in another quantity. */
  lemma RoundReflectsIff(m: Manager, v: Venue, t: Target)
    requires Agrees(m, v) && m.nextId + 2 < WORD
    ensures var v' := ReceiveAll(v, Actions(m, t));
      && (Reflects(v', t) <==> !Resized(m.yes, t, Yes) && !Resized(m.no, t, No))
      && (t.active ==> forall s: Side :: Round(m, t).Side(s).open && Round(m, t).Side(s).price == t.Price(s))
  {
    RoundIs(m, t);
    RoundIsProper(m, v, t);
    var v' := ReceiveAll(v, Actions(m, t));
    var m' := Round(m, t);
    ReflectsSide(m'.yes, v', t, Yes);
    ReflectsSide(m'.no, v', t, No);
  }

  lemma ReflectsSide(cur: OrderState, v: Venue, t: Target, s: Side)
    requires SideAgrees(cur, s, v)
    ensures SideReflects(v, t, s) <==>
      if t.active then cur.open && cur.price == t.Price(s) && cur.qty == t.qty else !cur.open
  {
    if cur.open && t.active && cur.price == t.Price(s) && cur.qty == t.qty {
      assert OnlyOn(v, s, cur.clientId);
    }
  }

  /** Reconciling again with the same target sends nothing. */
  lemma RoundIsStable(m: Manager, t: Target)
    requires m.nextId + 2 < WORD
    ensures Actions(Round(m, t), t) == [] && Round(Round(m, t), t) == Round(m, t)
  {
    RoundIs(m, t);
  }

  /** The quantity of a live order at an unchanged price is never corrected. */
  lemma ResizeIsIgnored()
    ensures var m := Round(START, Target(true, 40, 30, 10)); var t := Target(true, 40, 30, 20);
      Actions(m, t) == [] && m.yes.qty == 10
  {
    RoundIs(START, Target(true, 40, 30, 10));
  }

  // ----- whole runs

  function Managed(ts: seq<Target>): Manager {
    if ts == [] then START else Round(Managed(ts[..|ts| - 1]), ts[|ts| - 1])
  }

  /** Everything sent over a run. */
  function Sent(ts: seq<Target>): seq<Action> {
    if ts == [] then [] else Sent(ts[..|ts| - 1]) + Actions(Managed(ts[..|ts| - 1]), ts[|ts| - 1])
  }

  /** Over every run of targets (shorter than the 64-bit ids last) all actions sent are proper, and
      the venue holds exactly the orders the manager believes in. */
  lemma {:induction false} RunIsProper(ts: seq<Target>)
    requires 2 * |ts| + 2 < WORD
    ensures Proper(map[], 1, Sent(ts)) && Agrees(Managed(ts), ReceiveAll(map[], Sent(ts)))
    ensures Managed(ts).nextId == 1 + Placed(Sent(ts)) <= 1 + 2 * |ts|
  {
    if ts != [] {
      var ts' := ts[..|ts| - 1];
      var t := ts[|ts| - 1];
      RunIsProper(ts');
      var m, v := Managed(ts'), ReceiveAll(map[], Sent(ts'));
      RoundIsProper(m, v, t);
      RoundIs(m, t);
      ProperConcat(map[], 1, Sent(ts'), Actions(m, t), m.nextId);
      PlacedConcat(Sent(ts'), Actions(m, t));
      PlacedRound(m, t);
    }
  }

  lemma {:induction false} PlacedConcat(a: seq<Action>, b: seq<Action>)
    ensures Placed(a + b) == Placed(a) + Placed(b)
    decreases |a|
  {
    if a == [] {
      assert a + b == b;
    } else {
      assert (a + b)[1..] == a[1..] + b;
      PlacedConcat(a[1..], b);
    }
  }

  lemma PlacedRound(m: Manager, t: Target)
    requires m.nextId + 2 < WORD
    ensures NextAfter(m, t) == m.nextId + Placed(Actions(m, t))
  {
    var id := SideNext(m.yes, t.active, t.yesPrice, m.nextId);
    SideAcks(m, Yes, t.active, t.yesPrice, t.qty, m.nextId);
    SideAcks(m, No, t.active, t.noPrice, t.qty, id);
    PlacedConcat(SideActions(m.yes, Yes, t.active, t.yesPrice, t.qty, m.nextId),
                 SideActions(m.no, No, t.active, t.noPrice, t.qty, id));
  }

  class OrderManager {
    var yesOpen: OrderState
    var noOpen: OrderState
    var nextClientId: Word

    ghost function Value(): Manager
      reads this
    {
      Manager(yesOpen, noOpen, nextClientId)
    }

    constructor ()
      ensures Value() == START == Manager(OrderState(false, 0, 0, 0), OrderState(false, 0, 0, 0), 1)
    {
      yesOpen, noOpen, nextClientId := CLOSED, CLOSED, 1;
    }

    /** reconcile_helper: appends to the bundle, which has room for four. */
    method ReconcileHelper(cur: OrderState, s: Side, want: bool, price: Byte, qty: Count, out: seq<Action>)
      returns (r: seq<Action>)
      requires |out| <= 2
      modifies this`nextClientId
      ensures r == out + SideActions(cur, s, want, price, qty, old(nextClientId)) && |r| <= |out| + 2
      ensures nextClientId == SideNext(cur, want, price, old(nextClientId))
    {
      r := out;
      if !cur.open && want {
        r := r + [Place(s, price, qty, nextClientId)];
        nextClientId := Next(nextClientId);
      } else if cur.open && !want {
        r := r + [Cancel(s, cur.clientId)];
      } else if cur.open && want {
        if price != cur.price {
          r := r + [Cancel(s, cur.clientId)];
          r := r + [Place(s, price, qty, nextClientId)];
          nextClientId := Next(nextClientId);
        }
      }
    }

    method Reconcile(t: Target) returns (bundle: seq<Action>)
      modifies this`nextClientId
      ensures bundle == Actions(old(Value()), t) && |bundle| <= 4
      ensures nextClientId == NextAfter(old(Value()), t)
    {
      bundle := ReconcileHelper(yesOpen, Yes, t.active, t.yesPrice, t.qty, []);
      bundle := ReconcileHelper(noOpen, No, t.active, t.noPrice, t.qty, bundle);
    }

    method OnPlaceSent(a: Action)
      requires a.Place?
      modifies this`yesOpen, this`noOpen
      ensures Value() == Ack(old(Value()), a)
    {
      if a.side == Yes {
        yesOpen := OrderState(true, a.price, a.qty, a.clientId);
      } else {
        noOpen := OrderState(true, a.price, a.qty, a.clientId);
      }
    }

    method OnCancelSent(a: Action)
      requires a.Cancel?
      modifies this`yesOpen, this`noOpen
      ensures Value() == Ack(old(Value()), a) && Value().Side(a.side) == OrderState(false, 0, 0, 0)
    {
      if a.side == Yes {
        yesOpen := CLOSED;
      } else {
        noOpen := CLOSED;
      }
    }
  }
}
