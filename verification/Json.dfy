/** Flat JSON objects of strings without escapes and unsigned integers, read from their text. It
    knows the grammar of RFC 8259 alone and nothing of any program's messages. */
module Jsons {
  import opened Options
  import opened Texts

  /** A number is kept as its digits. */
  datatype Value = Str(text: string) | Num(digits: string)

  type Member = (string, Value)

  predicate Plain(t: string) {
    forall i | 0 <= i < |t| :: t[i] != '"' && t[i] != '\\'
  }

  /** Digits without a needless leading zero (section 6 of RFC 8259). */
  predicate IsNumber(d: string) {
    d != [] && AllDigits(d) && (|d| == 1 || d[0] != '0')
  }

  predicate CleanMember(m: Member) {
    Plain(m.0) && match m.1 case Str(t) => Plain(t) case Num(d) => IsNumber(d)
  }

  predicate CleanMembers(ms: seq<Member>) {
    forall i | 0 <= i < |ms| :: CleanMember(ms[i])
  }

  // ----- reading

  /** A string without escapes, up to and not including its closing quote. */
  function TakeString(s: string): (r: Option<string>)
    ensures r.Some? ==> |r.value| < |s| && Plain(r.value)
  {
    if s == [] || s[0] == '\\' then None
    else if s[0] == '"' then Some([])
    else
      var r := TakeString(s[1..]);
      if r == None then None else Some([s[0]] + r.value)
  }

  /** A quoted string, and what follows its closing quote. */
  function ReadString(s: string): (r: Option<(string, string)>)
    ensures r.Some? ==> Plain(r.value.0) && |r.value.1| < |s|
  {
    if s == [] || s[0] != '"' then None
    else
      var t := TakeString(s[1..]);
      if t == None then None else Some((t.value, s[|t.value| + 2..]))
  }

  function ReadNumber(s: string): (r: Option<(string, string)>)
    ensures r.Some? ==> |r.value.1| < |s|
  {
    var n := DigitEnd(s, 0);
    if n == 0 || (n > 1 && s[0] == '0') then None else Some((s[..n], s[n..]))
  }

  function ReadValue(s: string): (r: Option<(Value, string)>)
    ensures r.Some? ==> |r.value.1| < |s| && (r.value.0.Str? ==> Plain(r.value.0.text))
  {
    if s != [] && s[0] == '"' then
      match ReadString(s)
      case None => None
      case Some(t) => Some((Str(t.0), t.1))
    else
      match ReadNumber(s)
      case None => None
      case Some(d) => Some((Num(d.0), d.1))
  }

  function ReadMember(s: string): (r: Option<(Member, string)>)
    ensures r.Some? ==> |r.value.1| < |s| && (r.value.0.1.Str? ==> Plain(r.value.0.1.text))
  {
    match ReadString(s)
    case None => None
    case Some(name) =>
      if name.1 == [] || name.1[0] != ':' then None
      else
        match ReadValue(name.1[1..])
        case None => None
        case Some(v) => Some(((name.0, v.0), v.1))
  }

  /** Members up to the closing brace, behind which nothing may follow. */
  function ReadMembers(s: string): (r: Option<seq<Member>>)
    ensures r.Some? ==> PlainStrings(r.value)
    decreases |s|
  {
    match ReadMember(s)
    case None => None
    case Some(m) =>
      if m.1 == "}" then Some([m.0])
      else if m.1 == [] || m.1[0] != ',' then None
      else
        match ReadMembers(m.1[1..])
        case None => None
        case Some(more) => Some([m.0] + more)
  }

  predicate PlainStrings(ms: seq<Member>) {
    forall i | 0 <= i < |ms| && ms[i].1.Str? :: Plain(ms[i].1.text)
  }

  function ReadObject(s: string): (r: Option<seq<Member>>)
    ensures r.Some? ==> PlainStrings(r.value)
  {
    if s == [] || s[0] != '{' then None else ReadMembers(s[1..])
  }

  /** The value of the first member of that name. */
  function Get(ms: seq<Member>, name: string): (r: Option<Value>)
    ensures PlainStrings(ms) && r.Some? && r.value.Str? ==> Plain(r.value.text)
  {
    if ms == [] then None
    else if ms[0].0 == name then Some(ms[0].1)
    else Get(ms[1..], name)
  }

  // ----- writing

  function ValueText(v: Value): string {
    match v
    case Str(t) => "\"" + (t + "\"")
    case Num(d) => d
  }

  function MemberText(m: Member): string {
    "\"" + (m.0 + ("\":" + ValueText(m.1)))
  }

  function MembersText(ms: seq<Member>): string
    requires ms != []
  {
    if |ms| == 1 then MemberText(ms[0]) + "}" else MemberText(ms[0]) + ("," + MembersText(ms[1..]))
  }

  function ObjectText(ms: seq<Member>): string
    requires ms != []
  {
    "{" + MembersText(ms)
  }

  // ----- reading back

  lemma {:induction false} TakeStringFront(t: string, rest: string)
    requires Plain(t) && rest != [] && rest[0] == '"'
    ensures TakeString(t + rest) == Some(t)
  {
    if t == [] {
      assert t + rest == rest;
    } else {
      assert (t + rest)[1..] == t[1..] + rest;
      TakeStringFront(t[1..], rest);
      assert t == [t[0]] + t[1..];
    }
  }

  lemma {:induction false} StringFront(t: string, rest: string)
    requires Plain(t)
    ensures ReadString("\"" + (t + ("\"" + rest))) == Some((t, rest))
  {
    var s := "\"" + (t + ("\"" + rest));
    assert s[1..] == t + ("\"" + rest);
    TakeStringFront(t, "\"" + rest);
    assert s[|t| + 2..] == rest;
  }

  lemma {:induction false} NumberFront(d: string, rest: string)
    requires IsNumber(d) && (rest == [] || !IsDigit(rest[0]))
    ensures ReadNumber(d + rest) == Some((d, rest))
  {
    var s := d + rest;
    DigitEndIs(s, 0, |d|);
    assert s[..|d|] == d && s[|d|..] == rest;
  }

  lemma {:induction false} ValueFront(v: Value, rest: string)
    requires match v case Str(t) => Plain(t) case Num(d) => IsNumber(d)
    requires rest != [] && !IsDigit(rest[0])
    ensures ReadValue(ValueText(v) + rest) == Some((v, rest))
  {
    match v
    case Str(t) =>
      assert ValueText(v) + rest == "\"" + (t + ("\"" + rest));
      StringFront(t, rest);
    case Num(d) => NumberFront(d, rest);
  }

  lemma {:induction false} MemberFront(m: Member, rest: string)
    requires CleanMember(m) && rest != [] && !IsDigit(rest[0])
    ensures ReadMember(MemberText(m) + rest) == Some((m, rest))
  {
    var tail := ":" + (ValueText(m.1) + rest);
    assert MemberText(m) + rest == "\"" + (m.0 + ("\"" + tail));
    StringFront(m.0, tail);
    assert tail[1..] == ValueText(m.1) + rest;
    ValueFront(m.1, rest);
  }

  lemma {:induction false} MembersFront(m: Member, rest: string)
    requires CleanMember(m)
    ensures ReadMembers(MemberText(m) + ("," + rest)) ==
      match ReadMembers(rest) case None => None case Some(more) => Some([m] + more)
  {
    MemberFront(m, "," + rest);
    assert ("," + rest)[1..] == rest;
  }

  lemma {:induction false} FirstAndRest(ms: seq<Member>)
    requires ms != [] && CleanMembers(ms)
    ensures ms == [ms[0]] + ms[1..] && CleanMember(ms[0]) && CleanMembers(ms[1..]) && (|ms| == 1 ==> ms == [ms[0]])
  {
  }

  lemma {:induction false} LastMember(m: Member)
    requires CleanMember(m)
    ensures ReadMembers(MemberText(m) + "}") == Some([m])
  {
    MemberFront(m, "}");
  }

  lemma {:induction false} MembersReadBack(ms: seq<Member>)
    requires ms != [] && CleanMembers(ms)
    ensures ReadMembers(MembersText(ms)) == Some(ms)
    decreases |ms|
  {
    if |ms| == 1 {
      FirstAndRest(ms);
      LastMember(ms[0]);
    } else {
      FirstAndRest(ms);
      MembersFront(ms[0], MembersText(ms[1..]));
      MembersReadBack(ms[1..]);
    }
  }

  /** What is written of clean members is an object and reads back as them. */
  lemma {:induction false} ObjectReadsBack(ms: seq<Member>)
    requires ms != [] && CleanMembers(ms)
    ensures ReadObject(ObjectText(ms)) == Some(ms)
  {
    assert ObjectText(ms)[1..] == MembersText(ms);
    MembersReadBack(ms);
  }

  /** A member whose value starts like no value is refused. */
  lemma {:induction false} BadValue(name: string, value: string)
    requires Plain(name) && value != [] && value[0] != '"' && !IsDigit(value[0])
    ensures ReadMembers("\"" + (name + ("\":" + value))) == None
  {
    var tail := ":" + value;
    assert "\"" + (name + ("\":" + value)) == "\"" + (name + ("\"" + tail));
    StringFront(name, tail);
    assert tail[1..] == value;
  }
}
