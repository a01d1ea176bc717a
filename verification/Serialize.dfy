/** serialize_action of src/net/serialize.cpp: the JSON text of an action, written through a moving
    pointer into a buffer, and what a reader of JSON finds in it. */
module Serializers {
  import opened Machine
  import opened PriceTime
  import opened Strategies
  import opened Options
  import opened Texts
  import opened Jsons

  const PLACE_HEAD := "{\"action\":\"place\",\"ticker\":\""
  const CANCEL_HEAD := "{\"action\":\"cancel\",\"ticker\":\""
  const SIDE_KEY := "\",\"side\":\""
  const PRICE_KEY := "\",\"price\":"
  const QTY_KEY := ",\"qty\":"
  const ID_KEY := ",\"client_id\":"
  const QUOTED_ID_KEY := "\",\"client_id\":"
  const CLOSE := "}"
  const MIN_CAPACITY := 256

  function SideName(s: Side): string {
    if s == Yes then "yes" else "no"
  }

  /** emit_u8: two digits at most; from 100 on the first character is no digit. */
  function U8(v: Byte): string {
    (if v >= 10 then [('0' as int + v / 10) as char] else []) + [DigitChar(v % 10)]
  }

  /** emit_u8 writes a decimal number if and only if the value is below 100, and then the right one. */
  lemma U8IsDecimalIff(v: Byte)
    ensures AllDigits(U8(v)) <==> v <= 99
    ensures v <= 99 ==> U8(v) == Digits(v)
    ensures v > 99 ==> !IsDigit(U8(v)[0])
  {
    if v > 99 {
      assert U8(v)[0] > '9';
    }
  }

  // ----- the text

  function PlaceText(t: string, s: Side, price: Byte, qty: Count, id: Word): string {
    PLACE_HEAD + (t + (SIDE_KEY + (SideName(s) + (PRICE_KEY + (U8(price) + (QTY_KEY + (Digits(qty) + (ID_KEY + (Digits(id) + CLOSE)))))))))
  }

  function CancelText(t: string, id: Word): string {
    CANCEL_HEAD + (t + (QUOTED_ID_KEY + (Digits(id) + CLOSE)))
  }

  function Text(a: Action, t: string): string {
    match a
    case Place(s, price, qty, id) => PlaceText(t, s, price, qty, id)
    case Cancel(_, id) => CancelText(t, id)
  }

  lemma WordDigits(id: Word)
    ensures |Digits(id)| <= 20
  {
    assert Pow10(10) == 10_000_000_000;
    assert Pow10(15) == 1_000_000_000_000_000;
    assert Pow10(20) == 100_000_000_000_000_000_000;
    DigitsLength(id, 20);
  }

  /** The text is at most 104 bytes and the ticker, so every ticker that the feed parser lets through,
      of 31 bytes at most, fits the smallest buffer. */
  lemma TextFits(a: Action, t: string)
    ensures |Text(a, t)| <= 104 + |t|
    ensures |t| <= 31 ==> |Text(a, t)| <= 256
  {
    WordDigits(a.clientId);
    if a.Place? {
      assert Pow10(10) == 10_000_000_000;
      DigitsLength(a.qty, 10);
    }
  }

  /** The longest action there is. */
  const LONGEST := Place(Yes, 10, 0xffff_ffff, WORD - 1)

  /** The bound is attained. */
  lemma LongestText(t: string)
    ensures |Text(LONGEST, t)| == 104 + |t|
  {
    TextFits(LONGEST, t);
    assert Pow10(9) == 1_000_000_000;
    DigitsAtLeast(0xffff_ffff, 9);
    assert Pow10(10) == 10_000_000_000;
    assert Pow10(15) == 1_000_000_000_000_000;
    assert Pow10(19) == 10_000_000_000_000_000_000;
    DigitsAtLeast(WORD - 1, 19);
    assert |U8(10)| == 2;
  }

  /** The smallest buffer that the guard lets through holds every action of a ticker if and only if
      the ticker has at most 152 bytes; beyond that the printer runs past it. */
  lemma GuardSufficesIff(t: string)
    ensures (forall a: Action :: |Text(a, t)| <= 256) <==> |t| <= 152
  {
    LongestText(t);
    forall a: Action
      ensures |Text(a, t)| <= 104 + |t|
    {
      TextFits(a, t);
    }
  }

  // ----- the text as a JSON object

  /** The members that the text of an action holds. */
  function MembersOf(a: Action, t: string): (ms: seq<Member>)
    ensures ms != []
  {
    match a
    case Place(s, price, qty, id) =>
      [("action", Str("place")), ("ticker", Str(t)), ("side", Str(SideName(s))), ("price", Num(U8(price))),
       ("qty", Num(Digits(qty))), ("client_id", Num(Digits(id)))]
    case Cancel(_, id) =>
      [("action", Str("cancel")), ("ticker", Str(t)), ("client_id", Num(Digits(id)))]
  }

  function StringOpen(name: string): string {
    "\"" + (name + "\":\"")
  }

  function NumberOpen(name: string): string {
    "\"" + (name + "\":")
  }

  /** What each piece that the printer copies is made of. */
  lemma Pieces()
    ensures SIDE_KEY == "\"," + StringOpen("side")
    ensures PRICE_KEY == "\"," + NumberOpen("price")
    ensures QTY_KEY == "," + NumberOpen("qty")
    ensures ID_KEY == "," + NumberOpen("client_id")
    ensures QUOTED_ID_KEY == "\"," + NumberOpen("client_id")
  {
  }

  lemma PlaceHead()
    ensures PLACE_HEAD == "{" + (MemberText(("action", Str("place"))) + ("," + StringOpen("ticker")))
  {
  }

  lemma CancelHead()
    ensures CANCEL_HEAD == "{" + (MemberText(("action", Str("cancel"))) + ("," + StringOpen("ticker")))
  {
  }

  lemma StringPiece(name: string, t: string, open: string, rest: string)
    ensures StringOpen(name) + (t + (("\"," + open) + rest)) == MemberText((name, Str(t))) + ("," + (open + rest))
  {
  }

  lemma NumberPiece(name: string, d: string, open: string, rest: string)
    ensures NumberOpen(name) + (d + (("," + open) + rest)) == MemberText((name, Num(d))) + ("," + (open + rest))
  {
  }

  lemma LastPiece(name: string, d: string)
    ensures NumberOpen(name) + (d + "}") == MembersText([(name, Num(d))])
  {
  }

  lemma HeadPiece(m: Member, open: string, rest: string)
    ensures ("{" + (MemberText(m) + ("," + open))) + rest == "{" + (MemberText(m) + ("," + (open + rest)))
  {
  }

  lemma MoreMembers(m: Member, ms: seq<Member>)
    requires ms != []
    ensures MembersText([m] + ms) == MemberText(m) + ("," + MembersText(ms))
  {
    assert ([m] + ms)[1..] == ms;
  }

  lemma CancelIsObject(t: string, id: Word)
    ensures CancelText(t, id) == ObjectText([("action", Str("cancel"))] + ([("ticker", Str(t))] + [("client_id", Num(Digits(id)))]))
  {
    Pieces();
    CancelHead();
    var d, open := Digits(id), NumberOpen("client_id");
    LastPiece("client_id", d);
    StringPiece("ticker", t, open, d + "}");
    MoreMembers(("ticker", Str(t)), [("client_id", Num(d))]);
    HeadPiece(("action", Str("cancel")), StringOpen("ticker"), t + (("\"," + open) + (d + "}")));
    MoreMembers(("action", Str("cancel")), [("ticker", Str(t))] + [("client_id", Num(d))]);
  }

  /** From the price on. */
  function PriceOn(price: Byte, qty: Count, id: Word): (ms: seq<Member>)
    ensures ms != []
  {
    [("price", Num(U8(price)))] + ([("qty", Num(Digits(qty)))] + [("client_id", Num(Digits(id)))])
  }

  lemma PriceOnText(price: Byte, qty: Count, id: Word)
    ensures NumberOpen("price") + (U8(price) + (QTY_KEY + (Digits(qty) + (ID_KEY + (Digits(id) + CLOSE))))) ==
            MembersText(PriceOn(price, qty, id))
  {
    Pieces();
    var d, open := Digits(id), NumberOpen("client_id");
    LastPiece("client_id", d);
    NumberPiece("qty", Digits(qty), open, d + "}");
    MoreMembers(("qty", Num(Digits(qty))), [("client_id", Num(d))]);
    NumberPiece("price", U8(price), NumberOpen("qty"), Digits(qty) + (("," + open) + (d + "}")));
    MoreMembers(("price", Num(U8(price))), [("qty", Num(Digits(qty)))] + [("client_id", Num(d))]);
  }

  /** What stands in front of the rest of a placement's members. */
  lemma PlaceFront(t: string, s: Side, rest: string)
    ensures PLACE_HEAD + (t + (SIDE_KEY + (SideName(s) + (PRICE_KEY + rest)))) ==
            "{" + (MemberText(("action", Str("place"))) + ("," + (MemberText(("ticker", Str(t))) + ("," +
            (MemberText(("side", Str(SideName(s)))) + ("," + (NumberOpen("price") + rest)))))))
  {
    Pieces();
    PlaceHead();
    var open := NumberOpen("price");
    StringPiece("side", SideName(s), open, rest);
    StringPiece("ticker", t, StringOpen("side"), SideName(s) + (("\"," + open) + rest));
    HeadPiece(("action", Str("place")), StringOpen("ticker"), t + (SIDE_KEY + (SideName(s) + (PRICE_KEY + rest))));
  }

  lemma PlaceIsObject(t: string, s: Side, price: Byte, qty: Count, id: Word)
    ensures PlaceText(t, s, price, qty, id) ==
            ObjectText([("action", Str("place"))] + ([("ticker", Str(t))] + ([("side", Str(SideName(s)))] + PriceOn(price, qty, id))))
  {
    var ms := PriceOn(price, qty, id);
    PriceOnText(price, qty, id);
    PlaceFront(t, s, U8(price) + (QTY_KEY + (Digits(qty) + (ID_KEY + (Digits(id) + CLOSE)))));
    MoreMembers(("side", Str(SideName(s))), ms);
    MoreMembers(("ticker", Str(t)), [("side", Str(SideName(s)))] + ms);
    MoreMembers(("action", Str("place")), [("ticker", Str(t))] + ([("side", Str(SideName(s)))] + ms));
  }

  lemma MembersAre(a: Action, t: string)
    ensures match a
            case Place(s, price, qty, id) =>
              MembersOf(a, t) == [("action", Str("place"))] + ([("ticker", Str(t))] + ([("side", Str(SideName(s)))] + PriceOn(price, qty, id)))
            case Cancel(_, id) =>
              MembersOf(a, t) == [("action", Str("cancel"))] + ([("ticker", Str(t))] + [("client_id", Num(Digits(id)))])
  {
  }

  /** Every text that is written is the object of its members, whatever the ticker and the price. */
  lemma TextIsObject(a: Action, t: string)
    ensures Text(a, t) == ObjectText(MembersOf(a, t))
  {
    MembersAre(a, t);
    match a
    case Place(s, price, qty, id) => PlaceIsObject(t, s, price, qty, id);
    case Cancel(_, id) => CancelIsObject(t, id);
  }

  // ----- reading it back

  datatype Message =
    | PlaceMessage(ticker: string, side: Side, price: int, qty: int, clientId: int)
    | CancelMessage(ticker: string, clientId: int)

  function MessageOf(a: Action, t: string): Message {
    match a
    case Place(s, price, qty, id) => PlaceMessage(t, s, price, qty, id)
    case Cancel(_, id) => CancelMessage(t, id)
  }

  function NumberAt(ms: seq<Member>, name: string): Option<int> {
    match Get(ms, name)
    case Some(Num(d)) => Some(Number(d))
    case _ => None
  }

  function SideAt(ms: seq<Member>): Option<Side> {
    match Get(ms, "side")
    case Some(Str(s)) => if s == "yes" then Some(Yes) else if s == "no" then Some(No) else None
    case _ => None
  }

  function PlaceIn(ms: seq<Member>, t: string): (r: Option<Message>)
    ensures r.Some? ==> r.value.ticker == t
  {
    var side, price, qty, id := SideAt(ms), NumberAt(ms, "price"), NumberAt(ms, "qty"), NumberAt(ms, "client_id");
    if side.Some? && price.Some? && qty.Some? && id.Some? then
      Some(PlaceMessage(t, side.value, price.value, qty.value, id.value))
    else None
  }

  function CancelIn(ms: seq<Member>, t: string): (r: Option<Message>)
    ensures r.Some? ==> r.value.ticker == t
  {
    match NumberAt(ms, "client_id")
    case Some(id) => Some(CancelMessage(t, id))
    case None => None
  }

  function MessageIn(ms: seq<Member>): (r: Option<Message>)
    requires PlainStrings(ms)
    ensures r.Some? ==> Plain(r.value.ticker)
  {
    match Get(ms, "ticker")
    case Some(Str(t)) =>
      if Get(ms, "action") == Some(Str("place")) then PlaceIn(ms, t)
      else if Get(ms, "action") == Some(Str("cancel")) then CancelIn(ms, t)
      else None
    case _ => None
  }

  /** Reads a message as any JSON reader would: the text is split into members, which are then
      looked up by name. What it takes for a ticker never holds a quote or a backslash. */
  function Decode(s: string): (r: Option<Message>)
    ensures r.Some? ==> Plain(r.value.ticker)
  {
    match ReadObject(s)
    case None => None
    case Some(ms) => MessageIn(ms)
  }

  // ----- the round trip

  lemma {:induction false} GetAt(ms: seq<Member>, i: nat, name: string)
    requires i < |ms| && ms[i].0 == name && forall j | 0 <= j < i :: ms[j].0 != name
    ensures Get(ms, name) == Some(ms[i].1)
  {
    if i > 0 {
      assert ms[0].0 != name;
      assert forall j | 0 <= j < i - 1 :: ms[1..][j].0 == ms[j + 1].0;
      GetAt(ms[1..], i - 1, name);
    }
  }

  lemma DigitsAreJson(n: nat)
    ensures IsNumber(Digits(n))
  {
    DigitsAreNumber(n);
  }

  lemma CleanNames()
    ensures Plain("action") && Plain("ticker") && Plain("side") && Plain("price") && Plain("qty") && Plain("client_id")
    ensures Plain("place") && Plain("cancel") && Plain(SideName(Yes)) && Plain(SideName(No))
  {
  }

  lemma CleanFields(a: Action, t: string)
    requires Plain(t) && (a.Place? ==> a.price <= 99)
    ensures CleanMembers(MembersOf(a, t))
  {
    CleanNames();
    DigitsAreJson(a.clientId);
    if a.Place? {
      U8IsDecimalIff(a.price);
      DigitsAreJson(a.price);
      DigitsAreJson(a.qty);
    }
  }

  lemma ReadsBack(a: Action, t: string)
    requires Plain(t) && (a.Place? ==> a.price <= 99)
    ensures ReadObject(Text(a, t)) == Some(MembersOf(a, t))
  {
    TextIsObject(a, t);
    CleanFields(a, t);
    ObjectReadsBack(MembersOf(a, t));
  }

  lemma PlaceGets(s: Side, price: Byte, qty: Count, id: Word, t: string, ms: seq<Member>)
    requires ms == MembersOf(Place(s, price, qty, id), t)
    ensures |ms| == 6 && Get(ms, "action") == Some(Str("place")) && Get(ms, "ticker") == Some(Str(t))
    ensures Get(ms, "side") == Some(Str(SideName(s))) && Get(ms, "price") == Some(Num(U8(price)))
    ensures Get(ms, "qty") == Some(Num(Digits(qty))) && Get(ms, "client_id") == Some(Num(Digits(id)))
  {
    GetAt(ms, 0, "action");
    GetAt(ms, 1, "ticker");
    GetAt(ms, 2, "side");
    GetAt(ms, 3, "price");
    GetAt(ms, 4, "qty");
    GetAt(ms, 5, "client_id");
  }

  /** A placement's fields, found in its text under the names that the exchange reads. */
  lemma PlaceFields(s: Side, price: Byte, qty: Count, id: Word, t: string)
    requires Plain(t) && price <= 99
    ensures var o := ReadObject(Text(Place(s, price, qty, id), t));
      && o.Some? && |o.value| == 6
      && Get(o.value, "action") == Some(Str("place")) && Get(o.value, "ticker") == Some(Str(t))
      && Get(o.value, "side") == Some(Str(if s == Yes then "yes" else "no"))
      && Get(o.value, "price") == Some(Num(Digits(price))) && Get(o.value, "qty") == Some(Num(Digits(qty)))
      && Get(o.value, "client_id") == Some(Num(Digits(id)))
  {
    var a := Place(s, price, qty, id);
    ReadsBack(a, t);
    U8IsDecimalIff(price);
    PlaceGets(s, price, qty, id, t, MembersOf(a, t));
  }

  /** A cancellation's likewise. */
  lemma CancelFields(s: Side, id: Word, t: string)
    requires Plain(t)
    ensures var o := ReadObject(Text(Cancel(s, id), t));
      && o.Some? && |o.value| == 3
      && Get(o.value, "action") == Some(Str("cancel")) && Get(o.value, "ticker") == Some(Str(t))
      && Get(o.value, "client_id") == Some(Num(Digits(id)))
  {
    var a := Cancel(s, id);
    var ms := MembersOf(a, t);
    ReadsBack(a, t);
    GetAt(ms, 0, "action");
    GetAt(ms, 1, "ticker");
    GetAt(ms, 2, "client_id");
  }

  lemma BadNumber(name: string, d: string, rest: string)
    requires Plain(name) && d != [] && d[0] != '"' && !IsDigit(d[0])
    ensures ReadMembers(NumberOpen(name) + (d + rest)) == None
  {
    assert (d + rest)[0] == d[0];
    assert NumberOpen(name) + (d + rest) == "\"" + (name + ("\":" + (d + rest)));
    BadValue(name, d + rest);
  }

  lemma NoMembers(m1: Member, m2: Member, m3: Member, rest: string)
    requires CleanMember(m1) && CleanMember(m2) && CleanMember(m3) && ReadMembers(rest) == None
    ensures ReadObject("{" + (MemberText(m1) + ("," + (MemberText(m2) + ("," + (MemberText(m3) + ("," + rest))))))) == None
  {
    var r3 := MemberText(m3) + ("," + rest);
    var r2 := MemberText(m2) + ("," + r3);
    var r1 := MemberText(m1) + ("," + r2);
    MembersFront(m3, rest);
    MembersFront(m2, r3);
    MembersFront(m1, r2);
    assert ("{" + r1)[1..] == r1;
  }

  /** From price 100 on the text of a placement is no JSON object. */
  lemma PriceTooLong(t: string, s: Side, price: Byte, qty: Count, id: Word)
    requires Plain(t) && price > 99
    ensures ReadObject(PlaceText(t, s, price, qty, id)) == None
  {
    CleanNames();
    U8IsDecimalIff(price);
    var rest := QTY_KEY + (Digits(qty) + (ID_KEY + (Digits(id) + CLOSE)));
    BadNumber("price", U8(price), rest);
    PlaceFront(t, s, U8(price) + rest);
    NoMembers(("action", Str("place")), ("ticker", Str(t)), ("side", Str(SideName(s))), NumberOpen("price") + (U8(price) + rest));
  }

  lemma PlaceDecodes(text: string, t: string, s: Side, price: nat, qty: nat, id: nat)
    requires var o := ReadObject(text);
      && o.Some?
      && Get(o.value, "action") == Some(Str("place")) && Get(o.value, "ticker") == Some(Str(t))
      && Get(o.value, "side") == Some(Str(if s == Yes then "yes" else "no"))
      && Get(o.value, "price") == Some(Num(Digits(price))) && Get(o.value, "qty") == Some(Num(Digits(qty)))
      && Get(o.value, "client_id") == Some(Num(Digits(id)))
    ensures Decode(text) == Some(PlaceMessage(t, s, price, qty, id))
  {
    var ms := ReadObject(text).value;
    DigitsAreNumber(price);
    DigitsAreNumber(qty);
    DigitsAreNumber(id);
    assert SideAt(ms) == Some(s) by {
      assert "yes"[0] != "no"[0];
    }
    assert PlaceIn(ms, t) == Some(PlaceMessage(t, s, price, qty, id));
  }

  lemma CancelDecodes(text: string, t: string, id: nat)
    requires var o := ReadObject(text);
      && o.Some?
      && Get(o.value, "action") == Some(Str("cancel")) && Get(o.value, "ticker") == Some(Str(t))
      && Get(o.value, "client_id") == Some(Num(Digits(id)))
    ensures Decode(text) == Some(CancelMessage(t, id))
  {
    var ms := ReadObject(text).value;
    DigitsAreNumber(id);
    assert "place"[0] != "cancel"[0];
    assert CancelIn(ms, t) == Some(CancelMessage(t, id));
  }

  lemma RoundTrip(a: Action, t: string)
    requires Plain(t) && (a.Place? ==> a.price <= 99)
    ensures Decode(Text(a, t)) == Some(MessageOf(a, t))
  {
    match a
    case Place(s, price, qty, id) =>
      PlaceFields(s, price, qty, id, t);
      PlaceDecodes(Text(a, t), t, s, price, qty, id);
    case Cancel(s, id) =>
      CancelFields(s, id, t);
      CancelDecodes(Text(a, t), t, id);
  }

  /** The text gives back every field it holds if and only if the ticker has no quote and no
      backslash and, for a placement, the price is at most 99. */
  lemma RoundTripIff(a: Action, t: string)
    ensures Decode(Text(a, t)) == Some(MessageOf(a, t)) <==> Plain(t) && (a.Place? ==> a.price <= 99)
  {
    if Plain(t) && (a.Place? ==> a.price <= 99) {
      RoundTrip(a, t);
    } else if Plain(t) {
      PriceTooLong(t, a.side, a.price, a.qty, a.clientId);
    } else {
      assert MessageOf(a, t).ticker == t;
    }
  }

  // ----- the writer

  /** Nothing at or after `from` changed. */
  twostate predicate Kept(out: array<char>, from: nat)
    reads out
  {
    forall i | from <= i < out.Length :: out[i] == old(out[i])
  }

  /** memcpy at the pointer. */
  method Emit(out: array<char>, p: nat, s: string) returns (r: nat)
    requires p + |s| <= out.Length
    modifies out
    ensures r == p + |s| && out[..r] == old(out[..p]) + s && Kept(out, r)
  {
    r := p;
    var i := 0;
    while i < |s|
      invariant 0 <= i <= |s| && r == p + i
      invariant out[..r] == old(out[..p]) + s[..i] && Kept(out, r)
    {
      out[r] := s[i];
      r, i := r + 1, i + 1;
    }
  }

  /** The digits of w, or nothing for zero. */
  function Lead(w: nat): string {
    if w > 0 then Digits(w) else []
  }

  lemma LeadSplit(w: nat)
    requires w > 0
    ensures Lead(w) == Lead(w / 10) + [DigitChar(w % 10)]
  {
  }

  /** buf holds `tail` backwards. */
  predicate Backwards(buf: string, tail: string) {
    |buf| == |tail| && forall k | 0 <= k < |buf| :: buf[k] == tail[|tail| - 1 - k]
  }

  lemma BackwardsStep(buf: string, tail: string, lead: string, c: char)
    requires Backwards(buf, tail)
    ensures Backwards(buf + [c], [c] + tail) && (lead + [c]) + tail == lead + ([c] + tail)
  {
  }

  /** The digits of v, least significant first, in a local buffer. */
  method SplitDigits(v: Word) returns (buf: array<char>, len: nat)
    requires v > 0
    ensures fresh(buf) && len <= buf.Length && Backwards(buf[..len], Digits(v))
  {
    WordDigits(v);
    buf := new char[20];
    len := 0;
    var w := v;
    ghost var tail := [];
    assert Lead(v) == Lead(v) + [];
    while w > 0
      invariant Lead(w) + tail == Lead(v)
      invariant len <= 20 == buf.Length && Backwards(buf[..len], tail)
    {
      LeadSplit(w);
      var c := DigitChar(w % 10);
      BackwardsStep(buf[..len], tail, Lead(w / 10), c);
      assert len < 20;
      ghost var before := buf[..len];
      buf[len] := c;
      assert buf[..len + 1] == before + [c];
      w, len, tail := w / 10, len + 1, [c] + tail;
    }
  }

  /** emit_u64: the digits are made least significant first, then written in reverse. */
  method EmitU64(out: array<char>, p: nat, v: Word) returns (r: nat)
    requires p + |Digits(v)| <= out.Length
    modifies out
    ensures r == p + |Digits(v)| && out[..r] == old(out[..p]) + Digits(v) && Kept(out, r)
  {
    r := p;
    if v == 0 {
      out[r] := '0';
      r := r + 1;
      return;
    }
    var buf, len := SplitDigits(v);
    r := EmitBackwards(out, p, buf, len, Digits(v));
  }

  method EmitBackwards(out: array<char>, p: nat, buf: array<char>, n: nat, ghost d: string) returns (r: nat)
    requires n <= buf.Length && buf != out && p + n <= out.Length && Backwards(buf[..n], d)
    modifies out
    ensures r == p + n && out[..r] == old(out[..p]) + d && Kept(out, r)
  {
    r := p;
    var len := n;
    while len > 0
      invariant 0 <= len <= n && r == p + n - len
      invariant out[..r] == old(out[..p]) + d[..n - len] && Kept(out, r)
    {
      len := len - 1;
      assert buf[..n][len] == d[n - 1 - len];
      out[r] := buf[len];
      r := r + 1;
    }
  }

  /** emit_u8 */
  method EmitU8(out: array<char>, p: nat, v: Byte) returns (r: nat)
    requires p + |U8(v)| <= out.Length
    modifies out
    ensures r == p + |U8(v)| && out[..r] == old(out[..p]) + U8(v) && Kept(out, r)
  {
    r := p;
    if v >= 10 {
      out[r] := ('0' as int + v / 10) as char;
      r := r + 1;
    }
    out[r] := DigitChar(v % 10);
    r := r + 1;
  }

  /** `written` is what stands in the buffer and `rest` what is still to come of `full`. */
  ghost predicate Splits(full: string, written: string, rest: string) {
    full == written + rest
  }

  lemma Advance(full: string, written: string, s: string, rest: string)
    requires Splits(full, written, s + rest)
    ensures Splits(full, written + s, rest) && |written| + |s| <= |full|
  {
  }

  /** The closing of both kinds of message: the id and the brace. */
  method WriteTail(out: array<char>, p: nat, key: string, id: Word, ghost full: string) returns (r: nat)
    requires |full| <= out.Length && p <= out.Length
    requires Splits(full, out[..p], key + (Digits(id) + CLOSE))
    modifies out
    ensures r == |full| && out[..r] == full && Kept(out, r)
  {
    Advance(full, out[..p], key, Digits(id) + CLOSE);
    var q := Emit(out, p, key);
    Advance(full, out[..q], Digits(id), CLOSE);
    var q' := EmitU64(out, q, id);
    Advance(full, out[..q'], CLOSE, []);
    r := Emit(out, q', CLOSE);
  }

  /** From the side to the quantity of a placement. */
  method WriteOrder(out: array<char>, p: nat, a: Action, ghost full: string) returns (r: nat)
    requires a.Place? && |full| <= out.Length && p <= out.Length
    requires Splits(full, out[..p], SideName(a.side) + (PRICE_KEY + (U8(a.price) + (QTY_KEY + (Digits(a.qty) + (ID_KEY + (Digits(a.clientId) + CLOSE)))))))
    modifies out
    ensures p <= r <= |full| && Splits(full, out[..r], ID_KEY + (Digits(a.clientId) + CLOSE))
    ensures Kept(out, r)
  {
    ghost var tail := ID_KEY + (Digits(a.clientId) + CLOSE);
    Advance(full, out[..p], SideName(a.side), PRICE_KEY + (U8(a.price) + (QTY_KEY + (Digits(a.qty) + tail))));
    r := Emit(out, p, if a.side == Yes then "yes" else "no");
    Advance(full, out[..r], PRICE_KEY, U8(a.price) + (QTY_KEY + (Digits(a.qty) + tail)));
    r := Emit(out, r, PRICE_KEY);
    Advance(full, out[..r], U8(a.price), QTY_KEY + (Digits(a.qty) + tail));
    r := EmitU8(out, r, a.price);
    Advance(full, out[..r], QTY_KEY, Digits(a.qty) + tail);
    r := Emit(out, r, QTY_KEY);
    Advance(full, out[..r], Digits(a.qty), tail);
    r := EmitU64(out, r, a.qty);
  }

  /** The opening of both kinds of message: a head, the ticker and a key. */
  method WriteHead(out: array<char>, head: string, t: string, key: string, ghost rest: string) returns (r: nat)
    requires |head + (t + (key + rest))| <= out.Length
    modifies out
    ensures r == |head| + |t| + |key| && Splits(head + (t + (key + rest)), out[..r], rest)
    ensures Kept(out, r)
  {
    ghost var full := head + (t + (key + rest));
    Advance(full, out[..0], head, t + (key + rest));
    r := Emit(out, 0, head);
    Advance(full, out[..r], t, key + rest);
    r := Emit(out, r, t);
    Advance(full, out[..r], key, rest);
    r := Emit(out, r, key);
  }

  /** serialize_action. `out` is the memory from the buffer's start on, of which the caller's buffer
      is the first `cap` bytes: a longer text is written on past them, as GuardSufficesIff says. */
  method SerializeAction(a: Action, t: string, out: array<char>, cap: nat) returns (n: nat)
    requires cap <= out.Length && (cap >= 256 ==> |Text(a, t)| <= out.Length)
    modifies out
    ensures n <= out.Length && Kept(out, n)
    ensures if cap < 256 then n == 0 else out[..n] == Text(a, t)
  {
    if cap < MIN_CAPACITY {
      return 0;
    }
    ghost var full := Text(a, t);
    ghost var id := Digits(a.clientId) + CLOSE;
    if a.Place? {
      n := WriteHead(out, PLACE_HEAD, t, SIDE_KEY,
                     SideName(a.side) + (PRICE_KEY + (U8(a.price) + (QTY_KEY + (Digits(a.qty) + (ID_KEY + id))))));
      n := WriteOrder(out, n, a, full);
      n := WriteTail(out, n, ID_KEY, a.clientId, full);
    } else {
      n := WriteHead(out, CANCEL_HEAD, t, "", QUOTED_ID_KEY + id);
      n := WriteTail(out, n, QUOTED_ID_KEY, a.clientId, full);
    }
  }
}
