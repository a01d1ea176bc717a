/** The text that both HTTP sides build and search: substring search, header blocks, and numbers as
    std::stoi reads them. Strings are sequences of bytes. */
module HttpTexts {
  import opened Options
  import opened Texts

  const CRLF := "\r\n"
  const BLANK := "\r\n\r\n"
  const COLON := ": "
  const INT_MAX := 0x7fff_ffff
  const INT_MIN := -0x8000_0000

  // ----- std::string::find

  /** From character k on, `what` stands in s at i. */
  predicate MatchesFrom(s: string, what: string, i: int, k: nat)
    requires 0 <= i && k <= |what| && i + |what| <= |s|
    decreases |what| - k
  {
    k == |what| || (s[i + k] == what[k] && MatchesFrom(s, what, i, k + 1))
  }

  predicate OccursAt(s: string, what: string, i: int) {
    0 <= i && i + |what| <= |s| && MatchesFrom(s, what, i, 0)
  }

  lemma {:induction false} MatchesAre(s: string, what: string, i: int, k: nat)
    requires 0 <= i && k <= |what| && i + |what| <= |s|
    ensures MatchesFrom(s, what, i, k) <==> forall j | k <= j < |what| :: s[i + j] == what[j]
    decreases |what| - k
  {
    if k < |what| {
      MatchesAre(s, what, i, k + 1);
    }
  }

  lemma {:induction false} OccursIs(s: string, what: string, i: int)
    ensures OccursAt(s, what, i) <==> 0 <= i && i + |what| <= |s| && forall j | 0 <= j < |what| :: s[i + j] == what[j]
  {
    if 0 <= i && i + |what| <= |s| {
      MatchesAre(s, what, i, 0);
    }
  }

  /** The first occurrence at or after `from`; None is npos. */
  function Find(s: string, what: string, from: nat): (r: Option<nat>)
    ensures r.Some? ==> from <= r.value <= |s| - |what|
    decreases |s| - from
  {
    if from + |what| > |s| then None
    else if OccursAt(s, what, from) then Some(from)
    else Find(s, what, from + 1)
  }

  ghost predicate NoneBetween(s: string, what: string, from: nat, to: nat) {
    forall j | from <= j < to :: !OccursAt(s, what, j)
  }

  /** A search is decided by where the first occurrence is. */
  lemma {:induction false} FindIs(s: string, what: string, from: nat, i: nat)
    requires from <= i && OccursAt(s, what, i) && NoneBetween(s, what, from, i)
    ensures Find(s, what, from) == Some(i)
    decreases i - from
  {
    if from < i {
      FindIs(s, what, from + 1, i);
    }
  }

  /** A search gives the first occurrence, or there is none. */
  lemma {:induction false} FindFirst(s: string, what: string, from: nat)
    ensures match Find(s, what, from)
      case Some(i) => OccursAt(s, what, i) && NoneBetween(s, what, from, i)
      case None => NoneBetween(s, what, from, |s| + 1)
    decreases |s| - from
  {
    if from + |what| <= |s| && !OccursAt(s, what, from) {
      FindFirst(s, what, from + 1);
    }
  }

  lemma {:induction false} OccursShift(a: string, s: string, what: string, i: nat)
    ensures OccursAt(a + s, what, |a| + i) <==> OccursAt(s, what, i)
  {
    OccursIs(a + s, what, |a| + i);
    OccursIs(s, what, i);
  }

  /** Text before the place where a search starts only shifts the answer. */
  lemma {:induction false} FindShift(a: string, s: string, what: string, from: nat)
    ensures Find(a + s, what, |a| + from) ==
            match Find(s, what, from) case None => None case Some(i) => Some(|a| + i)
    decreases |s| - from
  {
    OccursShift(a, s, what, from);
    if from + |what| <= |s| && !OccursAt(s, what, from) {
      FindShift(a, s, what, from + 1);
    }
  }

  lemma {:induction false} OccursChar(s: string, what: string, i: int, k: nat)
    requires k < |what|
    ensures OccursAt(s, what, i) ==> i + k < |s| && s[i + k] == what[k]
  {
    OccursIs(s, what, i);
  }

  predicate Lacks(s: string, c: char) {
    forall i | 0 <= i < |s| :: s[i] != c
  }

  /** A separator is found right behind text that lacks its first character. */
  lemma {:induction false} FindBehind(x: string, what: string, rest: string)
    requires what != [] && Lacks(x, what[0])
    ensures Find(x + (what + rest), what, 0) == Some(|x|)
  {
    var s := x + (what + rest);
    OccursIs(s, what, |x|);
    forall j | 0 <= j < |x|
      ensures !OccursAt(s, what, j)
    {
      OccursChar(s, what, j, 0);
    }
    FindIs(s, what, 0, |x|);
  }

  /** An occurrence in a prefix is one in the whole. */
  lemma {:induction false} OccursInPrefix(s: string, k: nat, what: string, i: int)
    requires k <= |s|
    ensures OccursAt(s[..k], what, i) <==> OccursAt(s, what, i) && i + |what| <= k
  {
    OccursIs(s, what, i);
    OccursIs(s[..k], what, i);
  }

  // ----- header blocks

  type Header = (string, string)

  function Line(h: Header): string {
    h.0 + (COLON + h.1)
  }

  /** The header lines and the blank line behind them. */
  function HeaderText(hs: seq<Header>): string {
    if hs == [] then CRLF else Line(hs[0]) + (CRLF + HeaderText(hs[1..]))
  }

  /** A name without a colon, and no carriage return anywhere. */
  predicate CleanHeader(h: Header) {
    Lacks(h.0, ':') && Lacks(h.0, '\r') && Lacks(h.1, '\r')
  }

  predicate CleanHeaders(hs: seq<Header>) {
    forall i | 0 <= i < |hs| :: CleanHeader(hs[i])
  }

  function Message(start: string, hs: seq<Header>, body: string): string {
    start + (CRLF + (HeaderText(hs) + body))
  }

  /** Where the body of a message begins. */
  function BodyStart(start: string, hs: seq<Header>): nat {
    |start| + 2 + |HeaderText(hs)|
  }

  lemma {:induction false} LineIsClean(h: Header)
    requires CleanHeader(h)
    ensures Lacks(Line(h), '\r') && Line(h) != []
  {
  }

  /** No blank line starts before the end of a clean first line that text other than CR follows. */
  lemma {:induction false} NoBlankInLine(x: string, rest: string, i: nat)
    requires Lacks(x, '\r') && rest != [] && rest[0] != '\r' && i < |x| + 2
    ensures !OccursAt(x + (CRLF + rest), BLANK, i)
  {
    var s := x + (CRLF + rest);
    OccursChar(s, BLANK, i, 0);
    OccursChar(s, BLANK, i, 2);
    assert s[|x| + 1] == '\n' && s[|x| + 2] == rest[0];
    assert i < |x| ==> s[i] == x[i];
  }

  /** The first blank line of a message with clean lines is the one that ends its headers. */
  lemma {:induction false} FirstBlank(x: string, hs: seq<Header>, body: string)
    requires Lacks(x, '\r') && CleanHeaders(hs)
    ensures |HeaderText(hs)| >= 2
    ensures Find(Message(x, hs, body), BLANK, 0) == Some(BodyStart(x, hs) - 4)
    decreases |hs|
  {
    var s := Message(x, hs, body);
    if hs == [] {
      assert s == x + (BLANK + body);
      FindBehind(x, BLANK, body);
    } else {
      var l := Line(hs[0]);
      LineIsClean(hs[0]);
      var rest := Message(l, hs[1..], body);
      assert HeaderText(hs) + body == rest;
      assert s == (x + CRLF) + rest;
      FirstBlank(l, hs[1..], body);
      FindShift(x + CRLF, rest, BLANK, 0);
      FindFirst(s, BLANK, |x| + 2);
      var i := BodyStart(x, hs) - 4;
      forall j | 0 <= j < i
        ensures !OccursAt(s, BLANK, j)
      {
        if j < |x| + 2 {
          assert rest[0] == l[0];
          NoBlankInLine(x, rest, j);
          assert s == x + (CRLF + rest);
        }
      }
      FindIs(s, BLANK, 0, i);
    }
  }

  /** A prefix that ends before the body has no blank line yet. */
  lemma {:induction false} NoBlankYet(x: string, hs: seq<Header>, body: string, k: nat)
    requires Lacks(x, '\r') && CleanHeaders(hs) && k < BodyStart(x, hs)
    ensures k <= |Message(x, hs, body)| && Find(Message(x, hs, body)[..k], BLANK, 0) == None
  {
    var s := Message(x, hs, body);
    FirstBlank(x, hs, body);
    FindFirst(s, BLANK, 0);
    FindFirst(s[..k], BLANK, 0);
    var r := Find(s[..k], BLANK, 0);
    if r.Some? {
      OccursInPrefix(s, k, BLANK, r.value);
    }
  }

  // ----- where lines stand

  /** The characters from one position to another. */
  function Cut(s: string, from: nat, to: nat): string
    requires to <= |s|
    decreases |s| - from
  {
    if from >= to then [] else [s[from]] + Cut(s, from + 1, to)
  }

  lemma {:induction false} CutIs(s: string, from: nat, to: nat)
    requires from <= to <= |s|
    ensures Cut(s, from, to) == s[from..to]
    decreases |s| - from
  {
    if from < to {
      CutIs(s, from + 1, to);
      assert s[from..to] == [s[from]] + s[from + 1..to];
    }
  }

  lemma {:induction false} FindAfter(s: string, pre: string, x: string, what: string, rest: string)
    requires s == pre + (x + (what + rest)) && what != [] && Lacks(x, what[0])
    ensures Find(s, what, |pre|) == Some(|pre| + |x|)
  {
    FindShift(pre, x + (what + rest), what, 0);
    FindBehind(x, what, rest);
  }

  lemma {:induction false} CutMiddle(s: string, a: string, b: string, c: string)
    requires s == a + (b + c)
    ensures |a| + |b| <= |s| && Cut(s, |a|, |a| + |b|) == b
  {
    CutIs(s, |a|, |a| + |b|);
    assert s[|a|..|a| + |b|] == b;
  }

  /** `ptr` is where the body starts, and `line` a line start before it. */
  predicate AtLine(s: string, ptr: nat, line: nat) {
    ptr >= 4 && OccursAt(s, BLANK, ptr - 4) && (2 <= line <= ptr - 4 || 2 <= line == ptr - 2)
  }

  /** The line of h stands in s at `line`. */
  ghost predicate LineOf(s: string, line: nat, h: Header) {
    var nxt := line + |Line(h)|;
    line < nxt <= |s| && Find(s, CRLF, line) == Some(nxt) && Cut(s, line, nxt) == Line(h)
  }

  lemma {:induction false} LineAt(s: string, pre: string, h: Header, rest: string)
    requires CleanHeader(h) && s == pre + (Line(h) + (CRLF + rest))
    ensures LineOf(s, |pre|, h)
  {
    LineIsClean(h);
    FindAfter(s, pre, Line(h), CRLF, rest);
    CutMiddle(s, pre, Line(h), CRLF + rest);
  }

  lemma {:induction false} NextText(s: string, pre: string, hs: seq<Header>, tail: string)
    requires hs != [] && s == pre + (HeaderText(hs) + tail)
    ensures var rest := HeaderText(hs[1..]) + tail; var pre' := pre + (Line(hs[0]) + CRLF);
      && s == pre + (Line(hs[0]) + (CRLF + rest)) && s == pre' + rest
      && |pre'| == |pre| + |Line(hs[0])| + 2
  {
    var l, more := Line(hs[0]), HeaderText(hs[1..]);
    assert (l + (CRLF + more)) + tail == l + (CRLF + (more + tail));
    assert pre + (l + (CRLF + (more + tail))) == (pre + (l + CRLF)) + (more + tail);
  }

  lemma {:induction false} BlankAt(s: string, pre: string, tail: string)
    requires s == pre + (CRLF + tail)
    ensures Find(s, CRLF, |pre|) == Some(|pre|)
  {
    assert [] + (CRLF + tail) == CRLF + tail;
    FindAfter(s, pre, [], CRLF, tail);
  }

  /** From `line` on, s holds the lines of hs and a blank one. */
  ghost predicate LaidOut(s: string, line: nat, hs: seq<Header>)
    decreases |hs|
  {
    if hs == [] then Find(s, CRLF, line) == Some(line)
    else LineOf(s, line, hs[0]) && LaidOut(s, line + |Line(hs[0])| + 2, hs[1..])
  }

  lemma {:induction false} Layout(s: string, pre: string, hs: seq<Header>, tail: string)
    requires CleanHeaders(hs) && s == pre + (HeaderText(hs) + tail)
    ensures LaidOut(s, |pre|, hs)
    decreases |hs|
  {
    if hs == [] {
      BlankAt(s, pre, tail);
    } else {
      NextText(s, pre, hs, tail);
      LineAt(s, pre, hs[0], HeaderText(hs[1..]) + tail);
      Layout(s, pre + (Line(hs[0]) + CRLF), hs[1..], tail);
    }
  }

  lemma {:induction false} LaidOutRest(s: string, line: nat, hs: seq<Header>)
    requires hs != [] && LaidOut(s, line, hs) && CleanHeaders(hs)
    ensures LineOf(s, line, hs[0]) && CleanHeader(hs[0])
    ensures LaidOut(s, line + |Line(hs[0])| + 2, hs[1..]) && CleanHeaders(hs[1..])
  {
  }

  lemma {:induction false} FirstAndRest(hs: seq<Header>)
    requires hs != []
    ensures hs == [hs[0]] + hs[1..]
  {
  }

  // ----- numbers

  predicate IsSpace(c: char) {
    c == ' ' || '\t' <= c <= '\r'
  }

  function SkipSpace(s: string, from: nat): (r: nat)
    requires from <= |s|
    ensures from <= r <= |s|
    decreases |s| - from
  {
    if from < |s| && IsSpace(s[from]) then SkipSpace(s, from + 1) else from
  }

  /** The number that the digits between two positions stand for. */
  function NumberIn(s: string, from: nat, to: nat): int
    requires to <= |s|
  {
    if to <= from then 0 else NumberIn(s, from, to - 1) * 10 + (s[to - 1] as int - '0' as int)
  }

  lemma {:induction false} NumberInIs(s: string, from: nat, to: nat)
    requires from <= to <= |s|
    ensures NumberIn(s, from, to) == Number(s[from..to])
  {
    if from < to {
      NumberInIs(s, from, to - 1);
      assert s[from..to][..to - from - 1] == s[from..to - 1];
    }
  }

  /** std::stoi: None is the exception it throws. */
  function Stoi(s: string): Option<int> {
    var i := SkipSpace(s, 0);
    var from := if i < |s| && (s[i] == '-' || s[i] == '+') then i + 1 else i;
    var to := DigitEnd(s, from);
    var v := if i < from && s[i] == '-' then -NumberIn(s, from, to) else NumberIn(s, from, to);
    if from < to && INT_MIN <= v <= INT_MAX then Some(v) else None
  }

  /** std::to_string on an int. */
  function ToString(n: int): string {
    if n < 0 then "-" + Digits(-n) else Digits(n)
  }

  predicate AllSpace(s: string) {
    forall i | 0 <= i < |s| :: s[i] == ' ' || 9 <= s[i] as int <= 13
  }

  lemma {:induction false} SkipSpaceIs(s: string, from: nat, end: nat)
    requires from <= end <= |s| && (forall i | from <= i < end :: IsSpace(s[i])) && (end == |s| || !IsSpace(s[end]))
    ensures SkipSpace(s, from) == end
    decreases |s| - from
  {
    if from < end {
      SkipSpaceIs(s, from + 1, end);
    }
  }

  /** std::stoi passes over white space, takes a sign, reads digits as far as they go, and lets any
      other text follow them. Without a digit there, or beyond an int, it throws. */
  lemma {:induction false} StoiReads(space: string, sign: string, d: string, rest: string)
    requires AllSpace(space) && sign in ["", "+", "-"] && AllDigits(d) && (rest == [] || !IsDigit(rest[0]))
    requires sign == "" && d == [] && rest != [] ==> rest[0] != '+' && rest[0] != '-' && !IsSpace(rest[0])
    ensures var v := if sign == "-" then -Number(d) else Number(d);
      Stoi(space + (sign + (d + rest))) == if d != [] && -0x8000_0000 <= v <= 0x7fff_ffff then Some(v) else None
  {
    var s := space + (sign + (d + rest));
    StoiPlaces(space, sign, d, rest);
    CutParts(space, sign, d, rest);
    StoiAt(s, |space|, |space| + |sign|, |space| + |sign| + |d|, sign);
  }

  lemma {:induction false} CutParts(space: string, sign: string, d: string, rest: string)
    ensures (space + (sign + (d + rest)))[|space| + |sign|..|space| + |sign| + |d|] == d
  {
  }

  lemma {:induction false} StoiAt(s: string, i: nat, from: nat, end: nat, sign: string)
    requires i <= from <= end <= |s| && from == i + |sign| && sign in ["", "+", "-"]
    requires (forall k | 0 <= k < i :: IsSpace(s[k])) && (i == |s| || !IsSpace(s[i]))
    requires (sign == "" <==> i == |s| || (s[i] != '-' && s[i] != '+')) && (sign == "-" <==> i < |s| && s[i] == '-')
    requires (forall k | from <= k < end :: IsDigit(s[k])) && (end == |s| || !IsDigit(s[end]))
    ensures var v := if sign == "-" then -Number(s[from..end]) else Number(s[from..end]);
      Stoi(s) == if from < end && -0x8000_0000 <= v <= 0x7fff_ffff then Some(v) else None
  {
    SkipSpaceIs(s, 0, i);
    DigitEndIs(s, from, end);
    NumberInIs(s, from, end);
  }

  lemma {:induction false} StoiPlaces(space: string, sign: string, d: string, rest: string)
    requires AllSpace(space) && sign in ["", "+", "-"] && AllDigits(d) && (rest == [] || !IsDigit(rest[0]))
    requires sign == "" && d == [] && rest != [] ==> rest[0] != '+' && rest[0] != '-' && !IsSpace(rest[0])
    ensures var s := space + (sign + (d + rest)); var i, from, end := |space|, |space| + |sign|, |space| + |sign| + |d|;
      && (forall k | 0 <= k < i :: IsSpace(s[k])) && (i == |s| || !IsSpace(s[i]))
      && (sign == "" <==> i == |s| || (s[i] != '-' && s[i] != '+')) && (sign == "-" <==> i < |s| && s[i] == '-')
      && (forall k | from <= k < end :: IsDigit(s[k])) && (end == |s| || !IsDigit(s[end]))
  {
  }

  lemma {:induction false} StoiDigits(m: nat)
    ensures Stoi(Digits(m)) == if m <= 0x7fff_ffff then Some(m) else None
  {
    var d := Digits(m);
    DigitsAreNumber(m);
    StoiReads("", "", d, "");
    assert "" + ("" + (d + "")) == d;
  }

  /** std::stoi reads back what std::to_string wrote for an int, and throws beyond. */
  lemma {:induction false} StoiOfString(n: int)
    ensures Stoi(ToString(n)) == if -0x8000_0000 <= n <= 0x7fff_ffff then Some(n) else None
  {
    if n < 0 {
      var d := Digits(-n);
      DigitsAreNumber(-n);
      StoiReads("", "-", d, "");
      assert "" + ("-" + (d + "")) == "-" + d;
    } else {
      StoiDigits(n);
    }
  }
}
