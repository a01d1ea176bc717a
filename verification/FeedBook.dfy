/** Book of src/feed/book.h and book.cpp: per-side level quantities and a cached best bid, kept up
    from a stream of deltas. A level may go negative; what that does to the best is stated exactly. */
module FeedBooks {
  import opened PriceTime

  const PRICES := 100

  type Price = x: nat | x < PRICES
  type Int32 = x: int | -0x8000_0000 <= x <= 0x7fff_ffff

  datatype Delta = Delta(side: Side, price: Price, change: Int32)

  /** One side: the quantity at each price, and the cached best bid. */
  datatype Ladder = Ladder(levels: seq<int>, best: nat) {
    predicate Shaped() {
      |levels| == PRICES && best < PRICES
    }
  }

  /** Where the downward loop stops. */
  function Rescan(levels: seq<int>, best: nat): (r: nat)
    requires best < |levels|
    ensures r <= best && (r == 0 || levels[r] != 0) && forall p | r < p <= best :: levels[p] == 0
  {
    if best != 0 && levels[best] == 0 then Rescan(levels, best - 1) else best
  }

  function Apply(b: Ladder, price: Price, change: int): (r: Ladder)
    requires b.Shaped()
    ensures r.Shaped()
  {
    var level := b.levels[price] + change;
    var levels := b.levels[price := level];
    if level > 0 && price > b.best then Ladder(levels, price)
    else if price == b.best && level == 0 then Ladder(levels, Rescan(levels, price))
    else Ladder(levels, b.best)
  }

  /** The ladder of one side after a stream of deltas. */
  function After(ds: seq<Delta>, s: Side): (r: Ladder)
    ensures r.Shaped()
  {
    if ds == [] then Ladder(seq(PRICES, _ => 0), 0)
    else
      var b := After(ds[..|ds| - 1], s);
      var d := ds[|ds| - 1];
      if d.side == s then Apply(b, d.price, d.change) else b
  }

  // ----- the reference: sums of the deltas, and the highest positive level

  ghost function Sum(ds: seq<Delta>, s: Side, p: int): int {
    if ds == [] then 0
    else
      var d := ds[|ds| - 1];
      Sum(ds[..|ds| - 1], s, p) + if d.side == s && d.price == p then d.change else 0
  }

  /** `best` is the highest price with a positive quantity, or 0 when there is none. */
  ghost predicate IsTop(b: Ladder) {
    && b.Shaped()
    && (b.best != 0 ==> b.levels[b.best] > 0)
    && forall p | b.best < p < PRICES :: b.levels[p] <= 0
  }

  ghost predicate Exact(ds: seq<Delta>, s: Side) {
    && (forall p | 0 <= p < PRICES :: After(ds, s).levels[p] == Sum(ds, s, p))
    && IsTop(After(ds, s))
  }

  /** The levels are the sums, whatever the deltas. */
  lemma {:induction false} LevelsAreSums(ds: seq<Delta>, s: Side)
    ensures |After(ds, s).levels| == 100 && forall p | 0 <= p < 100 :: After(ds, s).levels[p] == Sum(ds, s, p)
  {
    if ds != [] {
      LevelsAreSums(ds[..|ds| - 1], s);
    }
  }

  // ----- exactly when the cached best stays right

  /** The first non-empty level below p, if any, is negative. */
  ghost predicate NegativeBelow(levels: seq<int>, p: nat)
    requires p < |levels|
  {
    exists q | 0 < q < p :: levels[q] < 0 && forall r | q < r < p :: levels[r] == 0
  }

  /** The delta does not leave the best level negative, and does not empty it above a negative one. */
  ghost predicate Harmless(b: Ladder, price: Price, change: int)
    requires b.Shaped()
  {
    var level := b.levels[price] + change;
    price == b.best && price != 0 ==> level >= 0 && (level == 0 ==> !NegativeBelow(b.levels, price))
  }

  lemma RescanTop(levels: seq<int>, p: Price)
    requires |levels| == PRICES && p != 0 && levels[p] == 0 && forall q | p < q < PRICES :: levels[q] <= 0
    ensures IsTop(Ladder(levels, Rescan(levels, p))) <==> !NegativeBelow(levels, p)
  {
    var r := Rescan(levels, p);
    if NegativeBelow(levels, p) {
      var q :| 0 < q < p && levels[q] < 0 && forall r | q < r < p :: levels[r] == 0;
      assert r == q;
    }
  }

  /** A delta applied to an exact ladder leaves it exact if and only if it is harmless. */
  lemma ApplyTopIff(b: Ladder, price: Price, change: int)
    requires IsTop(b)
    ensures IsTop(Apply(b, price, change)) <==> Harmless(b, price, change)
  {
    var level := b.levels[price] + change;
    var levels := b.levels[price := level];
    if price == b.best && level == 0 && price != 0 {
      RescanTop(levels, price);
      SameBelow(b.levels, levels, price);
    }
  }

  lemma SameBelow(a: seq<int>, b: seq<int>, p: nat)
    requires p < |a| == |b| && a[..p] == b[..p]
    ensures NegativeBelow(a, p) <==> NegativeBelow(b, p)
  {
    assert forall q | 0 <= q < p :: a[q] == a[..p][q] == b[q];
  }

  ghost predicate AlwaysExact(ds: seq<Delta>, s: Side) {
    Exact(ds, s) && (ds != [] ==> AlwaysExact(ds[..|ds| - 1], s))
  }

  ghost predicate AlwaysHarmless(ds: seq<Delta>, s: Side) {
    ds != [] ==>
      var d := ds[|ds| - 1];
      && AlwaysHarmless(ds[..|ds| - 1], s)
      && (d.side == s ==> Harmless(After(ds[..|ds| - 1], s), d.price, d.change))
  }

  /** The book is exact after every delta of a stream if and only if every delta was harmless. */
  lemma {:induction false} RunExactIff(ds: seq<Delta>, s: Side)
    ensures AlwaysExact(ds, s) <==> AlwaysHarmless(ds, s)
  {
    LevelsAreSums(ds, s);
    if ds != [] {
      RunExactIff(ds[..|ds| - 1], s);
      var d := ds[|ds| - 1];
      if AlwaysExact(ds[..|ds| - 1], s) && d.side == s {
        ApplyTopIff(After(ds[..|ds| - 1], s), d.price, d.change);
      }
    }
  }

  /** Every running level sum is a quantity that an int32 can hold. */
  ghost predicate Sensible(ds: seq<Delta>) {
    && (forall s, p | 0 <= p < PRICES :: 0 <= Sum(ds, s, p) <= 0x7fff_ffff)
    && (ds != [] ==> Sensible(ds[..|ds| - 1]))
  }

  /** A stream whose running sums stay non-negative keeps the book exact throughout. */
  lemma {:induction false} SensibleIsExact(ds: seq<Delta>, s: Side)
    requires Sensible(ds)
    ensures AlwaysExact(ds, s)
  {
    LevelsAreSums(ds, s);
    if ds != [] {
      var ds' := ds[..|ds| - 1];
      var d := ds[|ds| - 1];
      SensibleIsExact(ds', s);
      if d.side == s {
        var b := After(ds', s);
        assert 0 <= Sum(ds, s, d.price);
        forall q | 0 <= q < PRICES
          ensures b.levels[q] >= 0
        {
          assert 0 <= Sum(ds', s, q);
        }
        ApplyTopIff(b, d.price, d.change);
      }
    }
  }

  /** A level driven negative stays the cached best, though nothing is bid there. */
  lemma NegativeBestSticks()
    ensures var ds := [Delta(Yes, 50, 5), Delta(Yes, 50, -7)];
      After(ds, Yes).best == 50 && Sum(ds, Yes, 50) == -2 && !Exact(ds, Yes)
  {
    var ds := [Delta(Yes, 50, 5), Delta(Yes, 50, -7)];
    assert ds[..1] == [Delta(Yes, 50, 5)];
    assert ds[..1][..0] == [];
    var none := After([], Yes);
    assert none.levels[50] == 0 && none.best == 0;
    assert After(ds[..1], Yes) == Apply(none, 50, 5);
    assert After(ds, Yes) == Apply(After(ds[..1], Yes), 50, -7);
    LevelsAreSums(ds, Yes);
  }

  // ----- the order of the deltas does not matter

  lemma {:induction false} SumConcat(a: seq<Delta>, b: seq<Delta>, s: Side, p: int)
    ensures Sum(a + b, s, p) == Sum(a, s, p) + Sum(b, s, p)
  {
    if b == [] {
      assert a + b == a;
    } else {
      assert (a + b)[..|a + b| - 1] == a + b[..|b| - 1];
      SumConcat(a, b[..|b| - 1], s, p);
    }
  }

  lemma {:induction false} SumPermuted(a: seq<Delta>, b: seq<Delta>, s: Side, p: int)
    requires multiset(a) == multiset(b)
    ensures Sum(a, s, p) == Sum(b, s, p)
    decreases |a|
  {
    if a == [] {
      assert |multiset(b)| == 0;
    } else {
      var d := a[|a| - 1];
      assert d in multiset(b);
      var i :| 0 <= i < |b| && b[i] == d;
      var left, right := b[..i], b[i + 1..];
      assert a == a[..|a| - 1] + [d];
      assert b == left + ([d] + right);
      SameRest(a[..|a| - 1], left, right, d);
      SumPermuted(a[..|a| - 1], left + right, s, p);
      SumConcat(left, right, s, p);
      SumConcat(left, [d] + right, s, p);
      SumConcat([d], right, s, p);
      SumOne(d, s, p);
    }
  }

  lemma SameRest(a: seq<Delta>, left: seq<Delta>, right: seq<Delta>, d: Delta)
    requires multiset(a + [d]) == multiset(left + ([d] + right))
    ensures multiset(a) == multiset(left + right)
  {
    assert multiset(a + [d]) == multiset(a) + multiset{d};
    assert multiset(left + ([d] + right)) == multiset(left) + (multiset{d} + multiset(right));
    assert multiset(a) == multiset(a + [d]) - multiset{d};
  }

  lemma SumOne(d: Delta, s: Side, p: int)
    ensures Sum([d], s, p) == if d.side == s && d.price == p then d.change else 0
  {
    assert [d][..0] == [];
  }

  /** Two streams with the same deltas, both exact at their ends, leave the same book. */
  lemma ReorderingsAgree(a: seq<Delta>, b: seq<Delta>, s: Side)
    requires multiset(a) == multiset(b) && Exact(a, s) && Exact(b, s)
    ensures After(a, s) == After(b, s)
  {
    var x, y := After(a, s), After(b, s);
    forall p | 0 <= p < PRICES
      ensures x.levels[p] == y.levels[p]
    {
      SumPermuted(a, b, s, p);
    }
    assert x.levels == y.levels;
  }

  /** The body of Book::apply, on the level array and the best of the delta's side. */
  method AddDelta(levels: array<int>, best: nat, price: Price, change: int) returns (r: nat)
    requires levels.Length == PRICES && best < PRICES
    modifies levels
    ensures Ladder(levels[..], r) == Apply(Ladder(old(levels[..]), best), price, change)
  {
    r := best;
    levels[price] := levels[price] + change;
    ghost var after := levels[..];
    assert after == old(levels[..])[price := old(levels[price]) + change];
    if levels[price] > 0 && price > r {
      r := price;
    } else if price == r && levels[price] == 0 {
      while r != 0 && levels[r] == 0
        invariant r < PRICES && levels[..] == after
        invariant Rescan(after, r) == Rescan(after, price)
      {
        r := r - 1;
      }
    }
  }

  class Book {
    const yesLevels: array<int>
    const noLevels: array<int>
    var bestYes: nat
    var bestNo: nat
    ghost var history: seq<Delta>

    ghost predicate Valid()
      reads this, yesLevels, noLevels
    {
      && yesLevels != noLevels
      && Ladder(yesLevels[..], bestYes) == After(history, Yes)
      && Ladder(noLevels[..], bestNo) == After(history, No)
    }

    constructor ()
      ensures Valid() && history == [] && fresh(yesLevels) && fresh(noLevels)
    {
      yesLevels := new int[PRICES](_ => 0);
      noLevels := new int[PRICES](_ => 0);
      bestYes, bestNo := 0, 0;
      history := [];
      new;
      assert yesLevels[..] == seq(PRICES, _ => 0);
      assert noLevels[..] == seq(PRICES, _ => 0);
    }

    /** Book::apply. The level arithmetic is 32-bit signed, whose overflow the source must avoid. */
    method Apply(d: Delta)
      requires Valid()
      requires -0x8000_0000 <= Sum(history, d.side, d.price) + d.change <= 0x7fff_ffff
      modifies this, yesLevels, noLevels
      ensures Valid() && history == old(history) + [d]
    {
      assert (history + [d])[..|history|] == history;
      if d.side == Yes {
        bestYes := AddDelta(yesLevels, bestYes, d.price, d.change);
      } else {
        bestNo := AddDelta(noLevels, bestNo, d.price, d.change);
      }
      history := history + [d];
    }

    /** best_yes_bid(), best_no_bid(): the cached best, and for a stream of harmless deltas (so for
        every sensible one) the highest price with a positive sum. */
    method Best(s: Side) returns (best: nat)
      requires Valid()
      ensures best == After(history, s).best
      ensures AlwaysHarmless(history, s) || Sensible(history) ==>
        && best < PRICES && (best != 0 ==> Sum(history, s, best) > 0)
        && forall p | best < p < PRICES :: Sum(history, s, p) <= 0
    {
      best := if s == Yes then bestYes else bestNo;
      RunExactIff(history, s);
      LevelsAreSums(history, s);
      if Sensible(history) {
        SensibleIsExact(history, s);
      }
    }

    /** qty_at() */
    method QtyAt(s: Side, price: Price) returns (q: int)
      requires Valid()
      ensures q == Sum(history, s, price)
    {
      LevelsAreSums(history, s);
      q := if s == Yes then yesLevels[price] else noLevels[price];
      assert q == After(history, s).levels[price];
    }
  }
}
