/** The client's path from market data to orders: each delta is applied to the book, the signal is
    evaluated, the order manager reconciles, and every action sent is acknowledged in order. */
module Pipelines {
  import opened Machine
  import opened PriceTime
  import opened FeedBooks
  import opened Strategies
  import Options
  import Jsons
  import Serializers

  function Wanted(ds: seq<Delta>): Target {
    Evaluate(After(ds, Yes).best, After(ds, No).best)
  }

  /** The target after each delta of a stream. */
  function Targets(ds: seq<Delta>): (ts: seq<Target>)
    ensures |ts| == |ds|
  {
    if ds == [] then [] else Targets(ds[..|ds| - 1]) + [Wanted(ds)]
  }

  /** The orders live at the venue after a stream. */
  function Quoted(ds: seq<Delta>): Venue {
    ReceiveAll(map[], Sent(Targets(ds)))
  }

  /** p is the highest price whose deltas add up to a positive quantity, or 0. */
  ghost predicate TopBid(ds: seq<Delta>, s: Side, p: nat) {
    && p < PRICES && (p != 0 ==> Sum(ds, s, p) > 0)
    && forall q | p < q < PRICES :: Sum(ds, s, q) <= 0
  }

  ghost predicate Standard(m: Manager) {
    (m.yes.open ==> m.yes.qty == DEFAULT_QTY) && (m.no.open ==> m.no.qty == DEFAULT_QTY)
  }

  lemma {:induction false} QuotesAreStandard(ds: seq<Delta>)
    requires 2 * |ds| + 2 < WORD
    ensures Standard(Managed(Targets(ds)))
  {
    if ds != [] {
      var ds' := ds[..|ds| - 1];
      QuotesAreStandard(ds');
      assert Targets(ds)[..|ds| - 1] == Targets(ds');
      RunIsProper(Targets(ds'));
      RoundIs(Managed(Targets(ds')), Wanted(ds));
    }
  }

  lemma {:induction false} BestIsTopBid(ds: seq<Delta>, s: Side, p: nat)
    requires Exact(ds, s) && TopBid(ds, s, p)
    ensures After(ds, s).best == p
  {
    var b := After(ds, s);
    assert b.levels[p] == Sum(ds, s, p) && b.levels[b.best] == Sum(ds, s, b.best);
  }

  /** After every stream whatsoever the venue shows exactly the target of the cached bests, and every
      order sent on the way was proper. */
  lemma {:induction false} VenueFollowsBests(ds: seq<Delta>)
    requires ds != [] && 2 * |ds| + 2 < WORD
    ensures Proper(map[], 1, Sent(Targets(ds))) && Reflects(Quoted(ds), Wanted(ds))
  {
    var ds' := ds[..|ds| - 1];
    var ts' := Targets(ds');
    assert Targets(ds)[..|ds| - 1] == ts';
    RunIsProper(ts');
    RunIsProper(Targets(ds));
    QuotesAreStandard(ds');
    QuoteIsSafe(After(ds, Yes).best, After(ds, No).best);
    RoundReflectsIff(Managed(ts'), ReceiveAll(map[], Sent(ts')), Wanted(ds));
    SentExtend(ds);
  }

  /** If the book is exact at the end of a stream, the venue holds one order of ten a cent above each
      side's highest positive level if together those cost at most 99, and otherwise nothing. */
  lemma {:induction false} VenueQuotesBook(ds: seq<Delta>, y: nat, n: nat)
    requires ds != [] && Exact(ds, Yes) && Exact(ds, No) && 2 * |ds| + 2 < WORD
    requires TopBid(ds, Yes, y) && TopBid(ds, No, n)
    ensures if y != 0 && n != 0 && (y + 1) + (n + 1) <= 99
            then Reflects(Quoted(ds), Target(true, y + 1, n + 1, 10)) && |Quoted(ds)| == 2
            else Quoted(ds) == map[]
  {
    BestIsTopBid(ds, Yes, y);
    BestIsTopBid(ds, No, n);
    QuoteIsSafe(y, n);
    VenueFollowsBests(ds);
    VenueSize(Quoted(ds), Wanted(ds));
  }

  lemma {:induction false} SentExtend(ds: seq<Delta>)
    requires ds != [] && 2 * |ds| + 2 < WORD
    ensures var ts' := Targets(ds[..|ds| - 1]);
      Quoted(ds) == ReceiveAll(ReceiveAll(map[], Sent(ts')), Actions(Managed(ts'), Wanted(ds)))
  {
    var ts' := Targets(ds[..|ds| - 1]);
    assert Targets(ds)[..|ds| - 1] == ts';
    ReceiveConcat(map[], Sent(ts'), Actions(Managed(ts'), Wanted(ds)));
  }

  lemma {:induction false} ReceiveConcat(v: Venue, a: seq<Action>, b: seq<Action>)
    ensures ReceiveAll(v, a + b) == ReceiveAll(ReceiveAll(v, a), b)
    decreases |a|
  {
    if a == [] {
      assert a + b == b;
    } else {
      assert (a + b)[1..] == a[1..] + b;
      ReceiveConcat(Receive(v, a[0]), a[1..], b);
    }
  }

  lemma {:induction false} VenueSize(v: Venue, t: Target)
    requires Reflects(v, t)
    ensures if t.active then |v| == 2 else v == map[]
  {
    assert SideReflects(v, t, Yes) && SideReflects(v, t, No);
    assert forall id | id in v :: v[id].side == Yes || v[id].side == No;
    if t.active {
      var a: Word :| OnlyOn(v, Yes, a);
      var b: Word :| OnlyOn(v, No, b);
      assert v.Keys == {a, b};
      assert |v| == |v.Keys|;
    }
  }

  /** Every order ever sent is for ten, at a price from 2 to 98. */
  lemma {:induction false} SentArePriced(ds: seq<Delta>, a: Action)
    requires a in Sent(Targets(ds)) && a.Place?
    ensures 2 <= a.price <= 98 && a.qty == 10
  {
    if ds != [] {
      var ds' := ds[..|ds| - 1];
      assert Targets(ds)[..|ds| - 1] == Targets(ds');
      if a in Sent(Targets(ds')) {
        SentArePriced(ds', a);
      } else {
        QuoteIsSafe(After(ds, Yes).best, After(ds, No).best);
        assert a in Actions(Managed(Targets(ds')), Wanted(ds));
      }
    }
  }

  /** Every order ever sent prints within the smallest buffer and reads back, whatever plain ticker
      the feed let through. */
  lemma {:induction false} SentIsReadable(ds: seq<Delta>, a: Action, ticker: string)
    requires a in Sent(Targets(ds)) && Jsons.Plain(ticker) && |ticker| <= 31
    ensures |Serializers.Text(a, ticker)| <= 256
    ensures Serializers.Decode(Serializers.Text(a, ticker)) == Options.Some(Serializers.MessageOf(a, ticker))
  {
    Serializers.TextFits(a, ticker);
    Serializers.RoundTripIff(a, ticker);
    if a.Place? {
      SentArePriced(ds, a);
    }
  }

  /** One delta through the client. */
  method OnDelta(book: Book, om: OrderManager, d: Delta) returns (bundle: seq<Action>)
    requires book.Valid()
    requires -0x8000_0000 <= Sum(book.history, d.side, d.price) + d.change <= 0x7fff_ffff
    requires om.Value() == Managed(Targets(book.history))
    modifies book, book.yesLevels, book.noLevels, om
    ensures book.Valid() && book.history == old(book.history) + [d]
    ensures om.Value() == Managed(Targets(book.history))
    ensures Sent(Targets(book.history)) == old(Sent(Targets(book.history))) + bundle
  {
    book.Apply(d);
    ghost var ds := book.history;
    assert ds[..|ds| - 1] == old(book.history);
    assert Targets(ds)[..|ds| - 1] == Targets(old(book.history));
    var t := Evaluate(book.bestYes, book.bestNo);
    assert t == Wanted(ds) by {
      assert Ladder(book.yesLevels[..], book.bestYes) == After(ds, Yes);
      assert Ladder(book.noLevels[..], book.bestNo) == After(ds, No);
    }
    bundle := om.Reconcile(t);
    AckBundle(om, bundle);
  }

  method AckBundle(om: OrderManager, bundle: seq<Action>)
    modifies om`yesOpen, om`noOpen
    ensures om.Value() == AckAll(old(om.Value()), bundle)
  {
    var i := 0;
    while i < |bundle|
      invariant 0 <= i <= |bundle|
      invariant AckAll(om.Value(), bundle[i..]) == AckAll(old(om.Value()), bundle)
    {
      if bundle[i].Place? {
        om.OnPlaceSent(bundle[i]);
      } else {
        om.OnCancelSent(bundle[i]);
      }
      assert bundle[i..][1..] == bundle[i + 1..];
      i := i + 1;
    }
  }
}
