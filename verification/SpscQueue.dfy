/** SPSCQueue of src/core/spsc_queue.h as an interleaved machine: each thread moves in the steps
    between which the other thread may run. Indices are 64-bit and wrap. */
module SpscQueues {
  import opened Machine
  import opened Options

  /** Where the producer is inside try_push. */
  datatype Producer<T> =
    | PIdle
    | PLoaded(item: T, h: Word)      // own index loaded
    | PFull(item: T, h: Word)        // the cached tail says full: about to reload
    | PWriting(item: T, h: Word)     // about to store the item
    | PWritten(item: T, h: Word)     // about to publish

  /** What the consumer called. */
  datatype Call = TryPop | Front | Pop

  datatype Consumer<T> =
    | CIdle
    | CLoaded(call: Call, t: Word)
    | CEmpty(call: Call, t: Word)    // the cached head says empty: about to reload
    | CReading(t: Word)              // try_pop is about to copy the item out
    | CRead(item: Option<T>, t: Word) // about to publish

  /** The shared fields, both threads' private ones, and what went in and out so far. `peeked` is
      the slot that the last front() returned a pointer to. */
  datatype Ring<T> = Ring(head: Word, cachedTail: Word, tail: Word, cachedHead: Word, data: seq<T>,
                          p: Producer<T>, c: Consumer<T>, peeked: Option<nat>,
                          pushed: seq<T>, popped: seq<T>)

  /** size_t subtraction. */
  function Minus(a: Word, b: Word): Word {
    (a - b) % WORD
  }

  function Plus(a: Word, n: nat): Word {
    (a + n) % WORD
  }

  /** `x & mask_` for a power-of-two capacity. */
  function SlotOf(x: Word, cap: nat): (r: nat)
    requires cap > 0
    ensures r < cap
  {
    x % cap
  }

  ghost predicate Initial<T>(s: Ring<T>, cap: nat) {
    && IsCapacity(cap) && |s.data| == cap && s.pushed == [] && s.popped == []
    && s.head == s.cachedTail == s.tail == s.cachedHead == 0
    && s.p == PIdle && s.c == CIdle && s.peeked == None
  }

  datatype Step<T> =
    | StartPush(item: T)
    | CheckCachedTail
    | ReloadTail
    | WriteSlot
    | PublishHead
    | StartPop(call: Call)
    | CheckCachedHead
    | ReloadHead
    | ReadSlot
    | PublishTail

  /** After the emptiness check the three consumer calls go different ways. */
  function Proceed<T>(s: Ring<T>, call: Call, t: Word): Ring<T>
    requires |s.data| > 0
  {
    match call
    case TryPop => s.(c := CReading(t))
    case Front => s.(c := CIdle, peeked := Some(SlotOf(t, |s.data|)))
    case Pop => s.(c := CRead(None, t))
  }

  /** One step of one thread; a step that the thread is not at changes nothing. */
  function Do<T>(s: Ring<T>, step: Step<T>): (r: Ring<T>)
    requires |s.data| > 0
    ensures |r.data| == |s.data|
  {
    var cap := |s.data|;
    match step
    case StartPush(item) =>
      if s.p.PIdle? then s.(p := PLoaded(item, s.head)) else s
    case CheckCachedTail =>
      if !s.p.PLoaded? then s
      else if Minus(s.p.h, s.cachedTail) == cap then s.(p := PFull(s.p.item, s.p.h))
      else s.(p := PWriting(s.p.item, s.p.h))
    case ReloadTail =>
      if !s.p.PFull? then s
      else if Minus(s.p.h, s.tail) == cap then s.(cachedTail := s.tail, p := PIdle)
      else s.(cachedTail := s.tail, p := PWriting(s.p.item, s.p.h))
    case WriteSlot =>
      if !s.p.PWriting? then s
      else s.(data := s.data[SlotOf(s.p.h, cap) := s.p.item], p := PWritten(s.p.item, s.p.h))
    case PublishHead =>
      if !s.p.PWritten? then s
      else s.(head := Plus(s.p.h, 1), p := PIdle, pushed := s.pushed + [s.p.item])
    case StartPop(call) =>
      if s.c.CIdle? then s.(c := CLoaded(call, s.tail)) else s
    case CheckCachedHead =>
      if !s.c.CLoaded? then s
      else if Minus(s.cachedHead, s.c.t) == 0 then s.(c := CEmpty(s.c.call, s.c.t))
      else Proceed(s, s.c.call, s.c.t)
    case ReloadHead =>
      if !s.c.CEmpty? then s
      else if Minus(s.head, s.c.t) == 0 then s.(cachedHead := s.head, c := CIdle)
      else Proceed(s.(cachedHead := s.head), s.c.call, s.c.t)
    case ReadSlot =>
      if !s.c.CReading? then s
      else s.(c := CRead(Some(s.data[SlotOf(s.c.t, cap)]), s.c.t))
    case PublishTail =>
      if !s.c.CRead? then s
      else
        var item := if s.c.item.Some? then s.c.item.value else s.data[SlotOf(s.c.t, cap)];
        s.(tail := Plus(s.c.t, 1), c := CIdle, peeked := None, popped := s.popped + [item])
  }

  /** The state after a schedule of steps. */
  function Run<T>(s: Ring<T>, steps: seq<Step<T>>): (r: Ring<T>)
    requires |s.data| > 0
    ensures |r.data| == |s.data|
  {
    if steps == [] then s else Do(Run(s, steps[..|steps| - 1]), steps[|steps| - 1])
  }

  /** What the shared fields say is in the queue. */
  function Queued<T>(s: Ring<T>): (q: seq<T>)
    requires |s.data| > 0
  {
    seq(Minus(s.head, s.tail), i requires 0 <= i => s.data[SlotOf(Plus(s.tail, i), |s.data|)])
  }

  // ----- arithmetic of wrapping indices

  lemma WordDiff(n: nat, m: nat)
    requires m <= n < m + WORD
    ensures Minus(n % WORD, m % WORD) == n - m
  {
    var q := n / WORD - m / WORD;
    assert n % WORD - m % WORD == n - m + WORD * (-q);
    ModShift(n - m, WORD, -q);
  }

  lemma PlusIs(n: nat, k: nat)
    ensures Plus(n % WORD, k) == (n + k) % WORD
  {
    assert n % WORD + k == n + k + WORD * (-(n / WORD));
    ModShift(n + k, WORD, -(n / WORD));
  }

  /** The slot of a wrapped index is that of the unbounded count, as the capacity divides 2^64. */
  lemma SlotIs(n: nat, cap: nat)
    requires IsCapacity(cap)
    ensures SlotOf(n % WORD, cap) == n % cap
  {
    var m := CapacityDivides(cap);
    ModMod(n, cap, m);
  }

  lemma SlotsDiffer(i: nat, j: nat, cap: nat)
    requires 0 < cap && i < j < i + cap
    ensures i % cap != j % cap
  {
    if i % cap == j % cap {
      var k := j / cap - i / cap;
      assert cap * k == j - i;
      MulAtLeast(cap, k);
    }
  }

  // ----- the invariant

  /** The counts behind the indices, and what the cached copies may say: never ahead of the truth. */
  ghost predicate Indices<T>(s: Ring<T>, cap: nat) {
    && IsCapacity(cap) && |s.data| == cap
    && |s.popped| <= |s.pushed| <= |s.popped| + cap
    && s.head == |s.pushed| % WORD && s.tail == |s.popped| % WORD
    && Minus(s.head, s.cachedTail) <= cap && 0 <= |s.pushed| - Minus(s.head, s.cachedTail) <= |s.popped|
    && Minus(s.cachedHead, s.tail) <= cap && |s.popped| + Minus(s.cachedHead, s.tail) <= |s.pushed|
  }

  /** The slots between the indices hold the pushed items, in order. */
  ghost predicate Slots<T>(s: Ring<T>, cap: nat)
    requires cap > 0 && |s.data| == cap
  {
    && |s.popped| <= |s.pushed| && s.popped == s.pushed[..|s.popped|]
    && forall i | |s.popped| <= i < |s.pushed| :: s.data[i % cap] == s.pushed[i]
  }

  ghost predicate ProducerOk<T>(s: Ring<T>, cap: nat)
    requires cap > 0 && |s.data| == cap
  {
    && (!s.p.PIdle? ==> s.p.h == s.head)
    && (s.p.PWriting? || s.p.PWritten? ==> Minus(s.head, s.cachedTail) < cap)
    && (s.p.PWritten? ==> s.data[|s.pushed| % cap] == s.p.item)
  }

  ghost predicate ConsumerOk<T>(s: Ring<T>, cap: nat)
    requires cap > 0 && |s.popped| <= |s.pushed|
  {
    && (!s.c.CIdle? ==> s.c.t == s.tail)
    && (s.c.CReading? || s.c.CRead? || s.peeked.Some? ==> Minus(s.cachedHead, s.tail) > 0 && |s.popped| < |s.pushed|)
    && (s.c.CRead? && s.c.item.Some? ==> s.c.item.value == s.pushed[|s.popped|])
    && (s.peeked.Some? ==> s.peeked.value == |s.popped| % cap)
  }

  ghost predicate Inv<T>(s: Ring<T>, cap: nat) {
    Indices(s, cap) && cap > 0 && Slots(s, cap) && ProducerOk(s, cap) && ConsumerOk(s, cap)
  }

  // ----- every step keeps it

  lemma CheckKeeps<T>(s: Ring<T>, step: Step<T>, cap: nat)
    requires Inv(s, cap)
    requires step.StartPush? || step.CheckCachedTail? || step.StartPop? || step.CheckCachedHead?
    ensures Inv(Do(s, step), cap)
  {
    SlotIs(|s.popped|, cap);
  }

  lemma ReloadTailKeeps<T>(s: Ring<T>, cap: nat)
    requires Inv(s, cap)
    ensures Inv(Do(s, ReloadTail), cap)
  {
    var m := CapacityDivides(cap);
    WordDiff(|s.pushed|, |s.popped|);
  }

  lemma ReloadHeadKeeps<T>(s: Ring<T>, cap: nat)
    requires Inv(s, cap)
    ensures Inv(Do(s, ReloadHead), cap)
  {
    var m := CapacityDivides(cap);
    WordDiff(|s.pushed|, |s.popped|);
    SlotIs(|s.popped|, cap);
  }

  /** The slot the producer writes is none of those that hold queued items. */
  lemma WriteIsFree<T>(s: Ring<T>, cap: nat, i: nat)
    requires Inv(s, cap) && (s.p.PWriting? || s.p.PWritten?) && |s.popped| <= i < |s.pushed|
    ensures SlotOf(s.p.h, cap) == |s.pushed| % cap != i % cap
  {
    SlotIs(|s.pushed|, cap);
    SlotsDiffer(i, |s.pushed|, cap);
  }

  lemma WriteSlotKeeps<T>(s: Ring<T>, cap: nat)
    requires Inv(s, cap)
    ensures Inv(Do(s, WriteSlot), cap)
  {
    if s.p.PWriting? {
      var s' := Do(s, WriteSlot);
      SlotIs(|s.pushed|, cap);
      forall i | |s.popped| <= i < |s.pushed|
        ensures s'.data[i % cap] == s.pushed[i]
      {
        WriteIsFree(s, cap, i);
      }
    }
  }

  lemma PublishHeadKeeps<T>(s: Ring<T>, cap: nat)
    requires Inv(s, cap)
    ensures Inv(Do(s, PublishHead), cap)
  {
    if s.p.PWritten? {
      var s' := Do(s, PublishHead);
      var d := Minus(s.head, s.cachedTail);
      var ct := |s.pushed| - d;
      var m := CapacityDivides(cap);
      PlusIs(|s.pushed|, 1);
      CachedIs(s.head, s.cachedTail, |s.pushed|);
      WordDiff(|s.pushed| + 1, ct);
    }
  }

  /** A cached index is the wrapped count that lies as far behind as the difference says. */
  lemma CachedIs(a: Word, b: Word, n: nat)
    requires a == n % WORD && Minus(a, b) <= n
    ensures b == (n - Minus(a, b)) % WORD
  {
    var d := Minus(a, b);
    assert a - b == WORD * ((a - b) / WORD) + d;
    assert n - d == b + WORD * (n / WORD + (a - b) / WORD);
    DivModUnique(n - d, WORD, n / WORD + (a - b) / WORD, b);
  }

  lemma ReadSlotKeeps<T>(s: Ring<T>, cap: nat)
    requires Inv(s, cap)
    ensures Inv(Do(s, ReadSlot), cap)
  {
    SlotIs(|s.popped|, cap);
  }

  lemma PublishTailKeeps<T>(s: Ring<T>, cap: nat)
    requires Inv(s, cap)
    ensures Inv(Do(s, PublishTail), cap)
  {
    if s.c.CRead? {
      var m := CapacityDivides(cap);
      var a := Minus(s.cachedHead, s.tail);
      SlotIs(|s.popped|, cap);
      PlusIs(|s.popped|, 1);
      AheadIs(s.cachedHead, s.tail, |s.popped|);
      WordDiff(|s.popped| + a, |s.popped| + 1);
      assert s.data[|s.popped| % cap] == s.pushed[|s.popped|];
    }
  }

  lemma AheadIs(b: Word, a: Word, n: nat)
    requires a == n % WORD
    ensures b == (n + Minus(b, a)) % WORD
  {
    var d := Minus(b, a);
    assert b - a == WORD * ((b - a) / WORD) + d;
    assert n + d == b + WORD * (n / WORD - (b - a) / WORD);
    DivModUnique(n + d, WORD, n / WORD - (b - a) / WORD, b);
  }

  lemma StepKeeps<T>(s: Ring<T>, step: Step<T>, cap: nat)
    requires Inv(s, cap)
    ensures Inv(Do(s, step), cap)
  {
    match step
    case StartPush(_) => CheckKeeps(s, step, cap);
    case CheckCachedTail => CheckKeeps(s, step, cap);
    case ReloadTail => ReloadTailKeeps(s, cap);
    case WriteSlot => WriteSlotKeeps(s, cap);
    case PublishHead => PublishHeadKeeps(s, cap);
    case StartPop(_) => CheckKeeps(s, step, cap);
    case CheckCachedHead => CheckKeeps(s, step, cap);
    case ReloadHead => ReloadHeadKeeps(s, cap);
    case ReadSlot => ReadSlotKeeps(s, cap);
    case PublishTail => PublishTailKeeps(s, cap);
  }

  /** The invariant holds after every schedule. */
  lemma {:induction false} RunKeeps<T>(s: Ring<T>, steps: seq<Step<T>>, cap: nat)
    requires Initial(s, cap)
    ensures cap > 0 && |s.data| == cap && Inv(Run(s, steps), cap)
  {
    var m := CapacityDivides(cap);
    if steps == [] {
      assert s.popped == s.pushed[..0];
    } else {
      RunKeeps(s, steps[..|steps| - 1], cap);
      StepKeeps(Run(s, steps[..|steps| - 1]), steps[|steps| - 1], cap);
    }
  }

  // ----- what follows for every schedule

  /** What came out, followed by what the shared fields show, is exactly what went in, in order. */
  lemma RunIsFifo<T>(s: Ring<T>, steps: seq<Step<T>>, cap: nat)
    requires Initial(s, cap)
    ensures |s.data| > 0
    ensures var r := Run(s, steps); r.pushed == r.popped + Queued(r) && |Queued(r)| <= cap
  {
    RunKeeps(s, steps, cap);
    var r := Run(s, steps);
    var m := CapacityDivides(cap);
    WordDiff(|r.pushed|, |r.popped|);
    var q := Queued(r);
    forall i | 0 <= i < |q|
      ensures q[i] == r.pushed[|r.popped| + i]
    {
      PlusIs(|r.popped|, i);
      SlotIs(|r.popped| + i, cap);
    }
    assert r.pushed == r.pushed[..|r.popped|] + r.pushed[|r.popped|..];
  }

  /** The producer never writes the slot that the consumer is reading or holds a pointer to, and
      such a pointer keeps showing the oldest queued item. */
  lemma RunSeparates<T>(s: Ring<T>, steps: seq<Step<T>>, cap: nat)
    requires Initial(s, cap)
    ensures |s.data| > 0
    ensures var r := Run(s, steps);
      && (r.p.PWriting? && r.c.CReading? ==> SlotOf(r.p.h, cap) != SlotOf(r.c.t, cap))
      && (r.p.PWriting? && r.peeked.Some? ==> SlotOf(r.p.h, cap) != r.peeked.value)
      && (r.peeked.Some? ==> r.peeked.value < cap && |r.popped| < |r.pushed| && r.data[r.peeked.value] == r.pushed[|r.popped|])
  {
    RunKeeps(s, steps, cap);
    var r := Run(s, steps);
    SlotIs(|r.popped|, cap);
    if r.p.PWriting? && |r.popped| < |r.pushed| {
      WriteIsFree(r, cap, |r.popped|);
    }
  }

  /** No call gives up but on a reloading read that finds the queue full, or empty: that is the only
      way back to idle without publishing, and at those reads it is taken exactly then. */
  lemma RefusalsAreHonest<T>(s: Ring<T>, steps: seq<Step<T>>, step: Step<T>, cap: nat)
    requires Initial(s, cap)
    ensures |s.data| > 0
    ensures var r := Run(s, steps); var r' := Do(r, step);
      && (!r.p.PIdle? && r'.p.PIdle? && !step.PublishHead? ==> step.ReloadTail? && |r.pushed| == |r.popped| + cap)
      && (!r.c.CIdle? && r'.c.CIdle? && !step.PublishTail? ==>
            if r.c.call == Front then r'.peeked == None <==> |r.pushed| == |r.popped|
            else step.ReloadHead? && |r.pushed| == |r.popped|)
      && (r.p.PFull? && step.ReloadTail? ==> (r'.p == PIdle <==> |r.pushed| == |r.popped| + cap))
      && (r.c.CEmpty? && step.ReloadHead? && r.c.call != Front ==> (r'.c == CIdle <==> |r.pushed| == |r.popped|))
  {
    RunKeeps(s, steps, cap);
    var r := Run(s, steps);
    var m := CapacityDivides(cap);
    WordDiff(|r.pushed|, |r.popped|);
  }

  /** The other thread's index is loaded only when the copy kept of it leaves no room, or no item; it
      is then copied, whatever the call does next. */
  lemma CopiesSpareLoads<T>(s: Ring<T>, steps: seq<Step<T>>, step: Step<T>, cap: nat)
    requires Initial(s, cap)
    ensures |s.data| > 0
    ensures var r := Run(s, steps); var r' := Do(r, step);
      && (r.p.PLoaded? && step.CheckCachedTail? ==>
            (r'.p.PFull? <==> |r.pushed| >= cap && r.cachedTail == (|r.pushed| - cap) % WORD))
      && (r.c.CLoaded? && step.CheckCachedHead? ==> (r'.c.CEmpty? <==> r.cachedHead == |r.popped| % WORD))
      && (if r.p.PFull? && step.ReloadTail? then r'.cachedTail == |r.popped| % WORD else r'.cachedTail == r.cachedTail)
      && (if r.c.CEmpty? && step.ReloadHead? then r'.cachedHead == |r.pushed| % WORD else r'.cachedHead == r.cachedHead)
  {
    RunKeeps(s, steps, cap);
    var r := Run(s, steps);
    var m := CapacityDivides(cap);
    StepCopies(r, step);
    Behind(|r.pushed|, r.cachedTail, cap);
  }

  lemma StepCopies<T>(r: Ring<T>, step: Step<T>)
    requires |r.data| > 0
    ensures var r' := Do(r, step);
      && (r.p.PLoaded? && step.CheckCachedTail? ==> (r'.p.PFull? <==> Minus(r.p.h, r.cachedTail) == |r.data|))
      && (r.c.CLoaded? && step.CheckCachedHead? ==> (r'.c.CEmpty? <==> r.cachedHead == r.c.t))
      && (if r.p.PFull? && step.ReloadTail? then r'.cachedTail == r.tail else r'.cachedTail == r.cachedTail)
      && (if r.c.CEmpty? && step.ReloadHead? then r'.cachedHead == r.head else r'.cachedHead == r.cachedHead)
  {
  }

  /** Which word is k behind a wrapped count. */
  lemma Behind(n: nat, x: Word, k: nat)
    requires k < WORD && Minus(n % WORD, x) <= n
    ensures Minus(n % WORD, x) == k <==> n >= k && x == (n - k) % WORD
  {
    if n >= k {
      WordDiff(n, n - k);
      SameDistance(n % WORD, x, (n - k) % WORD);
    }
  }

  lemma SameDistance(a: Word, b: Word, c: Word)
    ensures Minus(a, b) == Minus(a, c) <==> b == c
  {
  }

  /** Only the two publishing steps move the log of what went in and out. */
  lemma StepLogs<T>(s: Ring<T>, step: Step<T>)
    requires |s.data| > 0
    ensures var s' := Do(s, step);
      if step.PublishHead? && s.p.PWritten? then s'.pushed == s.pushed + [s.p.item] && s'.popped == s.popped
      else if step.PublishTail? && s.c.CRead? then s'.pushed == s.pushed && |s'.popped| == |s.popped| + 1
      else s'.pushed == s.pushed && s'.popped == s.popped
  {
  }

  lemma QueuedIsTail<T>(s: Ring<T>, steps: seq<Step<T>>, cap: nat)
    requires Initial(s, cap)
    ensures |s.data| > 0
    ensures var r := Run(s, steps);
      && |r.popped| <= |r.pushed| && Queued(r) == r.pushed[|r.popped|..]
      && (r.c.CRead? ==> |r.popped| < |r.pushed| && (r.c.item.Some? ==> r.c.item.value == r.pushed[|r.popped|]))
  {
    RunIsFifo(s, steps, cap);
    RunKeeps(s, steps, cap);
  }

  /** The queue seen from outside changes only when an index is published: one step appends the
      pushed item, one removes the oldest, and every other step leaves the queue alone. */
  lemma StepsAreAtomic<T>(s: Ring<T>, steps: seq<Step<T>>, step: Step<T>, cap: nat)
    requires Initial(s, cap)
    ensures |s.data| > 0
    ensures var r := Run(s, steps); var q := Queued(r); var q' := Queued(Do(r, step));
      if step.PublishHead? && r.p.PWritten? then q' == q + [r.p.item]
      else if step.PublishTail? && r.c.CRead? then q != [] && q' == q[1..] && (r.c.item.Some? ==> r.c.item.value == q[0])
      else q' == q
  {
    QueuedIsTail(s, steps, cap);
    QueuedIsTail(s, steps + [step], cap);
    assert (steps + [step])[..|steps|] == steps;
    StepLogs(Run(s, steps), step);
  }

  // ----- whole calls, run without interruption

  /** try_push from start to end; a step that is skipped on the way taken changes nothing. */
  function Push<T>(r: Ring<T>, item: T): Ring<T>
    requires |r.data| > 0
  {
    Do(Do(Do(Do(Do(r, StartPush(item)), CheckCachedTail), ReloadTail), WriteSlot), PublishHead)
  }

  function Take<T>(r: Ring<T>, call: Call): Ring<T>
    requires |r.data| > 0
  {
    Do(Do(Do(Do(Do(r, StartPop(call)), CheckCachedHead), ReloadHead), ReadSlot), PublishTail)
  }

  /** A push that runs alone appends its item if there is room, and otherwise gives up. */
  lemma {:induction false} PushAlone<T>(s: Ring<T>, steps: seq<Step<T>>, item: T, cap: nat)
    requires Initial(s, cap) && |s.data| > 0 && Run(s, steps).p.PIdle?
    ensures var r := Run(s, steps); var r' := Push(r, item);
      && r'.p.PIdle? && r'.popped == r.popped
      && r'.pushed == if |r.pushed| < |r.popped| + cap then r.pushed + [item] else r.pushed
  {
    RunKeeps(s, steps, cap);
    var r := Run(s, steps);
    var m := CapacityDivides(cap);
    WordDiff(|r.pushed|, |r.popped|);
  }

  /** A pop that runs alone removes the oldest item if there is one, and otherwise gives up; front()
      points at it and leaves the queue alone. */
  lemma {:induction false} TakeAlone<T>(s: Ring<T>, steps: seq<Step<T>>, call: Call, cap: nat)
    requires Initial(s, cap) && |s.data| > 0 && Run(s, steps).c.CIdle?
    ensures var r := Run(s, steps); var r' := Take(r, call); var empty := |r.pushed| == |r.popped|;
      && r'.c.CIdle? && r'.pushed == r.pushed && |r.popped| <= |r.pushed|
      && r'.popped == (if call == Front || empty then r.popped else r.popped + [r.pushed[|r.popped|]])
      && (call == Front ==> r'.peeked == if empty then None else Some(|r.popped| % cap))
  {
    RunKeeps(s, steps, cap);
    var r := Run(s, steps);
    var m := CapacityDivides(cap);
    WordDiff(|r.pushed|, |r.popped|);
    SlotIs(|r.popped|, cap);
  }

  // ----- size(): two loads, between which others may run

  predicate ByProducer<T>(step: Step<T>) {
    step.StartPush? || step.CheckCachedTail? || step.ReloadTail? || step.WriteSlot? || step.PublishHead?
  }

  /** What the difference of two wrapped counts says, when the second may be ahead or far behind. */
  lemma LoadedSize(n: nat, m: nat, cap: nat)
    requires n < m + WORD && m + cap < n + WORD
    ensures m <= n ==> Minus(n % WORD, m % WORD) == n - m
    ensures Minus(n % WORD, m % WORD) <= cap <==> m <= n <= m + cap
  {
    if m <= n {
      WordDiff(n, m);
    } else {
      WordDiff(m, n);
      MinusFlips(n % WORD, m % WORD);
    }
  }

  lemma MinusFlips(a: Word, b: Word)
    requires Minus(b, a) > 0
    ensures Minus(a, b) == WORD - Minus(b, a)
  {
    if a < b {
      DivModUnique(a - b, WORD, -1, a - b + WORD);
    } else {
      DivModUnique(b - a, WORD, -1, b - a + WORD);
    }
  }

  lemma {:induction false} RunOn<T>(s: Ring<T>, steps: seq<Step<T>>, more: seq<Step<T>>)
    requires |s.data| > 0
    ensures Run(s, steps + more) == Run(Run(s, steps), more)
  {
    if more == [] {
      assert steps + more == steps;
    } else {
      assert (steps + more)[..|steps + more| - 1] == steps + more[..|more| - 1];
      RunOn(s, steps, more[..|more| - 1]);
    }
  }

  /** What went in and out only grows, by at most one item a step, and the log of a thread that
      takes no step stays. */
  lemma {:induction false} RunGrows<T>(s: Ring<T>, more: seq<Step<T>>)
    requires |s.data| > 0
    ensures var r := Run(s, more);
      && |s.pushed| <= |r.pushed| <= |s.pushed| + |more| && |s.popped| <= |r.popped| <= |s.popped| + |more|
      && ((forall i | 0 <= i < |more| :: !ByProducer(more[i])) ==> r.pushed == s.pushed)
      && ((forall i | 0 <= i < |more| :: ByProducer(more[i])) ==> r.popped == s.popped)
  {
    if more != [] {
      RunGrows(s, more[..|more| - 1]);
      StepLogs(Run(s, more[..|more| - 1]), more[|more| - 1]);
    }
  }

  /** The counts behind the indices of any reachable state. */
  lemma {:induction false} Counts<T>(s: Ring<T>, steps: seq<Step<T>>, cap: nat)
    requires Initial(s, cap)
    ensures |s.data| > 0 && cap < WORD
    ensures var r := Run(s, steps);
      && r.head == |r.pushed| % WORD && r.tail == |r.popped| % WORD
      && |r.popped| <= |r.pushed| <= |r.popped| + cap && |Queued(r)| == |r.pushed| - |r.popped|
  {
    RunKeeps(s, steps, cap);
    RunIsFifo(s, steps, cap);
    var m := CapacityDivides(cap);
  }

  /** What two states of a run have to do with each other. */
  lemma {:induction false} CountsGrow<T>(s: Ring<T>, steps: seq<Step<T>>, more: seq<Step<T>>)
    requires |s.data| > 0
    ensures var r, r' := Run(s, steps), Run(s, steps + more);
      && |r.pushed| <= |r'.pushed| <= |r.pushed| + |more| && |r.popped| <= |r'.popped| <= |r.popped| + |more|
      && ((forall i | 0 <= i < |more| :: !ByProducer(more[i])) ==> r'.pushed == r.pushed)
      && ((forall i | 0 <= i < |more| :: ByProducer(more[i])) ==> r'.popped == r.popped)
  {
    RunOn(s, steps, more);
    RunGrows(Run(s, steps), more);
  }

  /** Called by the producer or by the consumer, size() is the true size at the moment of loading the
      other thread's index, whichever of the two it loads first. */
  lemma {:induction false} SizeForOwner<T>(s: Ring<T>, steps: seq<Step<T>>, more: seq<Step<T>>, cap: nat, producer: bool)
    requires Initial(s, cap) && forall i | 0 <= i < |more| :: ByProducer(more[i]) <==> !producer
    ensures |s.data| > 0
    ensures var r, r' := Run(s, steps), Run(s, steps + more);
      var headFirst, tailFirst := Minus(r.head, r'.tail), Minus(r'.head, r.tail);
      && headFirst == (if producer then |Queued(r')| else |Queued(r)|) <= cap
      && tailFirst == (if producer then |Queued(r)| else |Queued(r')|) <= cap
  {
    Counts(s, steps, cap);
    Counts(s, steps + more, cap);
    CountsGrow(s, steps, more);
    var r, r' := Run(s, steps), Run(s, steps + more);
    if producer {
      LoadedSize(|r'.pushed|, |r'.popped|, cap);
      LoadedSize(|r.pushed|, |r.popped|, cap);
    } else {
      LoadedSize(|r.pushed|, |r.popped|, cap);
      LoadedSize(|r'.pushed|, |r'.popped|, cap);
    }
  }

  /** Called by a third thread it may be neither: loading the head first it is a size within the
      capacity if and only if no item pushed after that load was popped before the other, and
      loading the tail first if and only if the pushes in between left it room. */
  lemma {:induction false} SizeForOthers<T>(s: Ring<T>, steps: seq<Step<T>>, more: seq<Step<T>>, cap: nat)
    requires Initial(s, cap) && |more| + cap < WORD
    ensures |s.data| > 0
    ensures var r, r' := Run(s, steps), Run(s, steps + more);
      && (Minus(r.head, r'.tail) <= cap <==> |r'.popped| <= |r.pushed|)
      && (Minus(r'.head, r.tail) <= cap <==> |r'.pushed| <= |r.popped| + cap)
  {
    Counts(s, steps, cap);
    Counts(s, steps + more, cap);
    CountsGrow(s, steps, more);
    var r, r' := Run(s, steps), Run(s, steps + more);
    LoadedSize(|r.pushed|, |r'.popped|, cap);
    LoadedSize(|r'.pushed|, |r.popped|, cap);
  }

  lemma {:induction false} RunOneMore<T>(s: Ring<T>, steps: seq<Step<T>>, step: Step<T>)
    requires |s.data| > 0
    ensures Run(s, steps + [step]) == Do(Run(s, steps), step)
  {
    assert (steps + [step])[..|steps|] == steps;
  }

  lemma {:induction false} RunFour<T>(s: Ring<T>, a: Step<T>, b: Step<T>, c: Step<T>, d: Step<T>)
    requires |s.data| > 0
    ensures Run(s, [a, b, c, d]) == Do(Do(Do(Do(s, a), b), c), d)
  {
    RunOneMore(s, [], a);
    RunOneMore(s, [a], b);
    RunOneMore(s, [a, b], c);
    RunOneMore(s, [a, b, c], d);
    assert [] + [a] == [a] && [a] + [b] == [a, b] && [a, b] + [c] == [a, b, c] && [a, b, c] + [d] == [a, b, c, d];
  }

  /** One push and one pop between the two loads make an empty queue's size 2^64 - 1. */
  lemma {:induction false} OutsideSizeWraps<T>(s: Ring<T>, item: T, cap: nat)
    requires Initial(s, cap)
    ensures |s.data| > 0
    ensures var push := [StartPush(item), CheckCachedTail, WriteSlot, PublishHead];
      var pop := [StartPop(Pop), CheckCachedHead, ReloadHead, PublishTail];
      Minus(s.head, Run(s, push + pop).tail) == WORD - 1
  {
    var m := CapacityDivides(cap);
    var push := [StartPush(item), CheckCachedTail, WriteSlot, PublishHead];
    RunFour(s, StartPush(item), CheckCachedTail, WriteSlot, PublishHead);
    RunFour(Run(s, push), StartPop(Pop), CheckCachedHead, ReloadHead, PublishTail);
    RunOn(s, push, [StartPop(Pop), CheckCachedHead, ReloadHead, PublishTail]);
  }
}
