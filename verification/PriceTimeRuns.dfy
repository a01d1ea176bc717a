/** What holds of every run of the reference book. */
module PriceTimeRuns {
  import opened PriceTime

  lemma RunPrefix(fair: bool, ops: seq<Op>, replies: seq<Reply>, states: seq<RefState>, n: nat)
    requires RefRun(fair, ops, replies, states) && n <= |ops|
    ensures RefRun(fair, ops[..n], replies[..n], states[..n + 1])
  {
    var ops', replies', states' := ops[..n], replies[..n], states[..n + 1];
    forall k | 0 <= k < n
      ensures StepAt(fair, ops', replies', states', k)
    {
      assert StepAt(fair, ops, replies, states, k);
    }
  }

  lemma RunExtend(fair: bool, ops: seq<Op>, replies: seq<Reply>, states: seq<RefState>, op: Op, reply: Reply, s: RefState)
    requires RefRun(fair, ops, replies, states) && RefStep(fair, states[|ops|], op, s, reply)
    ensures RefRun(fair, ops + [op], replies + [reply], states + [s])
  {
    forall k | 0 <= k < |ops| + 1
      ensures StepAt(fair, ops + [op], replies + [reply], states + [s], k)
    {
      if k < |ops| {
        assert StepAt(fair, ops, replies, states, k);
      }
    }
  }

  /** Price-time priority leaves no choice: one sequence of orders has one sequence of answers. */
  lemma {:induction false} RunDeterministic(ops: seq<Op>, replies: seq<Reply>, states: seq<RefState>,
                                            replies': seq<Reply>, states': seq<RefState>)
    requires RefRun(true, ops, replies, states) && RefRun(true, ops, replies', states')
    ensures replies == replies' && states == states'
  {
    if ops == [] {
      assert states == [states[0]] && states' == [states'[0]];
    } else {
      var n := |ops| - 1;
      RunPrefix(true, ops, replies, states, n);
      RunPrefix(true, ops, replies', states', n);
      RunDeterministic(ops[..n], replies[..n], states[..n + 1], replies'[..n], states'[..n + 1]);
      assert states[..n + 1][n] == states[n] && states'[..n + 1][n] == states'[n];
      assert StepAt(true, ops, replies, states, n) && StepAt(true, ops, replies', states', n);
      StepDeterministic(states[n], ops[n], states[n + 1], replies[n], states'[n + 1], replies'[n]);
      assert replies == replies[..n] + [replies[n]] && replies' == replies'[..n] + [replies'[n]];
      assert states == states[..n + 1] + [states[n + 1]] && states' == states'[..n + 1] + [states'[n + 1]];
    }
  }

  lemma StepDeterministic(s: RefState, op: Op, s1: RefState, r1: Reply, s2: RefState, r2: Reply)
    requires RefStep(true, s, op, s1, r1) && RefStep(true, s, op, s2, r2)
    ensures s1 == s2 && r1 == r2
  {
    match op
    case PlaceOp(client, side, price, qty, ts) =>
      PlacesDeterministic(s.quotes, s.next, client, side, price, qty, ts,
                          s1.quotes, s1.next, r1.result, s2.quotes, s2.next, r2.result);
    case CancelOp(_, _) =>
  }

  // ----- ids, capacity and sizes

  ghost predicate Sane(s: RefState) {
    && (forall id | id in s.quotes :: 0 < id < s.next)
    && |s.quotes| <= CAPACITY && s.next > 0
  }

  ghost predicate Within(s: RefState, max: nat) {
    forall id | id in s.quotes :: s.quotes[id].qty <= max
  }

  ghost predicate OpWithin(op: Op, max: nat) {
    op.PlaceOp? ==> op.qty <= max
  }

  lemma SubsetSize(a: set<nat>, b: set<nat>)
    requires a <= b
    ensures |a| <= |b|
  {
    assert b == a + (b - a);
  }

  lemma StepSane(fair: bool, s: RefState, op: Op, s': RefState, reply: Reply, max: nat)
    requires Sane(s) && RefStep(fair, s, op, s', reply)
    ensures Sane(s')
    ensures Within(s, max) && OpWithin(op, max) ==> Within(s', max)
  {
    var q, q' := s.quotes, s'.quotes;
    match op
    case PlaceOp(client, side, price, qty, ts) =>
      if Acceptable(q, price, qty) {
        var r := reply.result;
        var t := Taker(s.next, side, price, ts);
        forall id | id in q'
          ensures 0 < id < s'.next && (id in q || id == s.next)
          ensures Within(s, max) && OpWithin(op, max) ==> q'[id].qty <= max
        {
          TradesShrink(fair, q, t, qty, r.fills, q' - {s.next}, r.resting, id);
          TradesShrink(fair, q, t, qty, r.fills, q' - {s.next}, r.resting, s.next);
        }
        assert q'.Keys <= q.Keys + {s.next};
        SubsetSize(q'.Keys, q.Keys + {s.next});
        assert |q'.Keys| <= |q.Keys| + 1;
      }
    case CancelOp(id, client) =>
      SubsetSize(q'.Keys, q.Keys);
  }

  lemma {:induction false} RunSane(fair: bool, ops: seq<Op>, replies: seq<Reply>, states: seq<RefState>, n: nat, max: nat)
    requires RefRun(fair, ops, replies, states) && n <= |ops|
    ensures Sane(states[n])
    ensures (forall k | 0 <= k < n :: OpWithin(ops[k], max)) ==> Within(states[n], max)
  {
    if n > 0 {
      RunSane(fair, ops, replies, states, n - 1, max);
      assert StepAt(fair, ops, replies, states, n - 1);
      StepSane(fair, states[n - 1], ops[n - 1], states[n], replies[n - 1], max);
    }
  }

  // ----- the book never crosses

  ghost predicate Uncrossed(q: Quotes) {
    forall x, y | x in q && y in q && q[x].side == Yes && q[y].side == No :: q[x].price < q[y].price
  }

  lemma StepUncrossed(s: RefState, op: Op, s': RefState, reply: Reply)
    requires Uncrossed(s.quotes) && RefStep(true, s, op, s', reply)
    ensures Uncrossed(s'.quotes)
  {
    var q, q' := s.quotes, s'.quotes;
    if op.PlaceOp? && Acceptable(q, op.price, op.qty) {
      var mid, r := q' - {s.next}, reply.result;
      var t := Taker(s.next, op.side, op.price, op.ts);
      forall x | x in mid
        ensures x in q && mid[x].side == q[x].side && mid[x].price == q[x].price
      {
        TradesShrink(true, q, t, op.qty, r.fills, mid, r.resting, x);
      }
      assert Uncrossed(mid);
      if r.resting > 0 {
        assert forall x | x in mid :: !Candidate(mid, op.side, op.price, x);
      }
    }
  }

  /** In every state of a fair run every bid is below every ask. */
  lemma {:induction false} RunUncrossed(ops: seq<Op>, replies: seq<Reply>, states: seq<RefState>, n: nat)
    requires RefRun(true, ops, replies, states) && n <= |ops|
    ensures Uncrossed(states[n].quotes)
  {
    if n > 0 {
      RunUncrossed(ops, replies, states, n - 1);
      assert StepAt(true, ops, replies, states, n - 1);
      StepUncrossed(states[n - 1], ops[n - 1], states[n], replies[n - 1]);
    }
  }

  // ----- conservation

  /** What was submitted under an id. */
  function Submitted(ops: seq<Op>, replies: seq<Reply>, id: nat): nat
    requires |ops| == |replies|
  {
    if ops == [] then 0
    else
      var n := |ops| - 1;
      Submitted(ops[..n], replies[..n], id)
      + (if ops[n].PlaceOp? && replies[n].Placed? && replies[n].result.accepted && replies[n].result.orderId == id
         then ops[n].qty else 0)
  }

  /** What an id gave in trades, as maker and as taker. */
  function Given(replies: seq<Reply>, id: nat): nat {
    if replies == [] then 0
    else
      var n := |replies| - 1;
      Given(replies[..n], id) + (if replies[n].Placed? then GivenBy(replies[n].result.fills, id) else 0)
  }

  /** What successful cancels of an id took out of the book. */
  ghost function Withdrawn(ops: seq<Op>, replies: seq<Reply>, states: seq<RefState>, id: nat): nat
    requires |ops| == |replies| && |states| == |ops| + 1
  {
    if ops == [] then 0
    else
      var n := |ops| - 1;
      Withdrawn(ops[..n], replies[..n], states[..n + 1], id)
      + (if ops[n] == CancelOp(id, ops[n].client) && replies[n] == Cancelled(true)
         then Resting(states[n].quotes, id) else 0)
  }

  lemma StepConserves(fair: bool, s: RefState, op: Op, s': RefState, reply: Reply, id: nat)
    requires RefStep(fair, s, op, s', reply) && s.next !in s.quotes
    ensures (if op.PlaceOp? && reply.result.accepted && reply.result.orderId == id then op.qty else 0)
            + Resting(s.quotes, id)
         == (if reply.Placed? then GivenBy(reply.result.fills, id) else 0)
            + (if op == CancelOp(id, op.client) && reply == Cancelled(true) then Resting(s.quotes, id) else 0)
            + Resting(s'.quotes, id)
  {
    if op.PlaceOp? && Acceptable(s.quotes, op.price, op.qty) {
      var r := reply.result;
      TradesConserve(fair, s.quotes, Taker(s.next, op.side, op.price, op.ts), op.qty, r.fills,
                     s'.quotes - {s.next}, r.resting, id);
    }
  }

  /** Quantity submitted = quantity traded + quantity withdrawn + quantity still resting, for every id. */
  lemma {:induction false} RunConserves(fair: bool, ops: seq<Op>, replies: seq<Reply>, states: seq<RefState>, id: nat)
    requires RefRun(fair, ops, replies, states)
    ensures Submitted(ops, replies, id)
         == Given(replies, id) + Withdrawn(ops, replies, states, id) + Resting(states[|ops|].quotes, id)
  {
    if ops != [] {
      var n := |ops| - 1;
      RunPrefix(fair, ops, replies, states, n);
      RunConserves(fair, ops[..n], replies[..n], states[..n + 1], id);
      RunSane(fair, ops, replies, states, n, 0);
      assert StepAt(fair, ops, replies, states, n);
      StepConserves(fair, states[n], ops[n], states[n + 1], replies[n], id);
      assert states[..n + 1][n] == states[n];
    }
  }

  // ----- priority

  /** The fills of one placement, before and after it: maker's price, inside the limit, best first,
      nobody skipped, and a remainder only when nothing crosses any more. */
  ghost predicate InPriority(q: Quotes, q': Quotes, t: Taker, fills: seq<Fill>, left: nat) {
    && (forall i | 0 <= i < |fills| ::
          Candidate(q, t.side, t.limit, fills[i].maker) && fills[i].price == q[fills[i].maker].price)
    && (forall i, j | 0 <= i < j < |fills| ::
          Precedes(t.side, fills[i].price, fills[i].maker, fills[j].price, fills[j].maker))
    && (forall i | 0 <= i < |fills| - 1 :: fills[i].maker !in q')
    && (forall i, x | 0 <= i < |fills| && x in q' && Candidate(q', t.side, t.limit, x) && x != fills[i].maker ::
          Precedes(t.side, fills[i].price, fills[i].maker, q'[x].price, x))
    && (left > 0 ==> NoCandidate(q', t.side, t.limit))
  }

  lemma MatchedInPriority(q: Quotes, t: Taker, qty: nat, fills: seq<Fill>, q': Quotes, left: nat)
    requires Matched(true, q, t, qty, fills, q', left)
    ensures InPriority(q, q', t, fills, left)
  {
    forall i | 0 <= i < |fills|
      ensures Candidate(q, t.side, t.limit, fills[i].maker) && fills[i].price == q[fills[i].maker].price
      ensures i < |fills| - 1 ==> fills[i].maker !in q'
    {
      TradesAreQuotes(true, q, t, qty, fills, q', left, i);
    }
    forall i, j | 0 <= i < j < |fills|
      ensures Precedes(t.side, fills[i].price, fills[i].maker, fills[j].price, fills[j].maker)
    {
      TradesSorted(q, t, qty, fills, q', left, i, j);
    }
    forall i, x | 0 <= i < |fills| && x in q' && Candidate(q', t.side, t.limit, x) && x != fills[i].maker
      ensures Precedes(t.side, fills[i].price, fills[i].maker, q'[x].price, x)
    {
      TradesSkipNobody(q, t, qty, fills, q', left, i, x);
    }
  }

  /** Price-time priority of every accepted placement of every fair run. */
  lemma RunInPriority(ops: seq<Op>, replies: seq<Reply>, states: seq<RefState>, n: nat)
    requires RefRun(true, ops, replies, states) && n < |ops|
    requires ops[n].PlaceOp? && replies[n].Placed? && replies[n].result.accepted
    ensures var r := replies[n].result;
      InPriority(states[n].quotes, states[n + 1].quotes - {r.orderId},
                 Taker(r.orderId, ops[n].side, ops[n].price, ops[n].ts), r.fills, r.resting)
  {
    var r := replies[n].result;
    assert StepAt(true, ops, replies, states, n);
    MatchedInPriority(states[n].quotes, Taker(r.orderId, ops[n].side, ops[n].price, ops[n].ts), ops[n].qty,
                      r.fills, states[n + 1].quotes - {r.orderId}, r.resting);
  }
}
