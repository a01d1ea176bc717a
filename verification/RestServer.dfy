/** The request side of sim/http/rest_server.cpp: parse_request on whatever has arrived so far, and
    the loop that appends reads to a connection's buffer until a request parses. */
module RestServers {
  import opened Options
  import opened Texts
  import opened HttpTexts

  const SPACE := " "

  datatype Request = Request(verb: string, path: string, headers: map<string, string>, body: string)

  /** Throws is the exception of std::stoi leaving parse_request. */
  datatype Outcome = Incomplete | Parsed(request: Request) | Throws

  /** What the Content-Length lines say of the body received so far. */
  datatype Verdict = Fine | Short | Thrown

  function Verb(s: string): string {
    match Find(s, SPACE, 0)
    case None => s
    case Some(i) => Cut(s, 0, i)
  }

  function PathStart(s: string): (r: nat)
    ensures r <= |s|
  {
    match Find(s, SPACE, 0)
    case None => 0                              // npos + 1 wraps
    case Some(i) => i + 1
  }

  function Path(s: string): string {
    match Find(s, SPACE, PathStart(s))
    case None => Cut(s, PathStart(s), |s|)
    case Some(j) => Cut(s, PathStart(s), j)
  }

  /** buffer.substr(from, to - from): a count that wrapped takes all the rest. */
  function Substr(s: string, from: nat, to: nat): string
    requires to <= |s|
  {
    if from <= to then Cut(s, from, to) else Cut(s, from, |s|)
  }

  function NameAt(s: string, line: nat): string {
    match Find(s, COLON, line)
    case None => Cut(s, line, |s|)
    case Some(i) => Cut(s, line, i)
  }

  function ContentAt(s: string, line: nat, nxt: nat): string
    requires nxt <= |s|
  {
    match Find(s, COLON, line)
    case None => Substr(s, 1, nxt)              // npos + 2 wraps
    case Some(i) => Substr(s, i + 2, nxt)
  }

  /** The line's end; behind it another line starts, unless it is the blank one. */
  function LineEnd(s: string, ptr: nat, line: nat): (nxt: nat)
    requires AtLine(s, ptr, line)
    ensures Find(s, CRLF, line) == Some(nxt) && line <= nxt < |s| && (nxt != line ==> AtLine(s, ptr, nxt + 2))
  {
    BlankHasTwo(s, ptr);
    FindFirst(s, CRLF, line);
    Find(s, CRLF, line).value
  }

  lemma {:induction false} BlankHasTwo(s: string, ptr: nat)
    requires ptr >= 4 && OccursAt(s, BLANK, ptr - 4)
    ensures OccursAt(s, CRLF, ptr - 4) && OccursAt(s, CRLF, ptr - 2) && !OccursAt(s, CRLF, ptr - 5)
  {
    OccursChar(s, BLANK, ptr - 4, 0);
    OccursChar(s, BLANK, ptr - 4, 1);
    OccursChar(s, BLANK, ptr - 4, 2);
    OccursChar(s, BLANK, ptr - 4, 3);
    OccursChar(s, CRLF, ptr - 5, 1);
  }

  /** The header lines from `line` on, each cut at its first colon and space. */
  function Lines(s: string, ptr: nat, line: nat): seq<Header>
    requires AtLine(s, ptr, line)
    decreases |s| - line
  {
    var nxt := LineEnd(s, ptr, line);
    if nxt == line then []
    else [(NameAt(s, line), ContentAt(s, line, nxt))] + Lines(s, ptr, nxt + 2)
  }

  function Check(h: Header, bodySize: nat): Verdict {
    if h.0 != "Content-Length" then Fine
    else match Stoi(h.1)
      case None => Thrown
      case Some(n) => if n != bodySize then Short else Fine
  }

  /** The first line that is not fine decides. */
  function Judge(hs: seq<Header>, bodySize: nat): Verdict {
    if hs == [] then Fine
    else
      var v := Judge(hs[..|hs| - 1], bodySize);
      if v.Fine? then Check(hs[|hs| - 1], bodySize) else v
  }

  /** request.headers: a later line overwrites an earlier one of the same name. */
  function Table(hs: seq<Header>): map<string, string> {
    if hs == [] then map[] else Table(hs[..|hs| - 1])[hs[|hs| - 1].0 := hs[|hs| - 1].1]
  }

  /** The start of the line after the first. */
  function SecondLine(s: string, ptr: nat): (line: nat)
    requires ptr >= 4 && Find(s, BLANK, 0) == Some(ptr - 4)
    ensures AtLine(s, ptr, line)
  {
    FindFirst(s, BLANK, 0);
    BlankHasTwo(s, ptr);
    FindFirst(s, CRLF, 0);
    Find(s, CRLF, 0).value + 2
  }

  function Finish(s: string, ptr: nat, hs: seq<Header>): Outcome
    requires ptr <= |s|
  {
    match Judge(hs, |s| - ptr)
    case Short => Incomplete
    case Thrown => Throws
    case Fine => Parsed(Request(Verb(s), Path(s), Table(hs), Cut(s, ptr, |s|)))
  }

  /** parse_request */
  function Parse(s: string): Outcome {
    match Find(s, BLANK, 0)
    case None => Incomplete
    case Some(i) => Finish(s, i + 4, Lines(s, i + 4, SecondLine(s, i + 4)))
  }

  lemma {:induction false} JudgeStops(a: seq<Header>, b: seq<Header>, bodySize: nat)
    requires Judge(a, bodySize) != Fine
    ensures Judge(a + b, bodySize) == Judge(a, bodySize)
    decreases |b|
  {
    if b == [] {
      assert a + b == a;
    } else {
      assert (a + b)[..|a + b| - 1] == a + b[..|b| - 1];
      JudgeStops(a, b[..|b| - 1], bodySize);
    }
  }

  lemma {:induction false} OneMore(hs: seq<Header>, h: Header, bodySize: nat)
    ensures Judge(hs, bodySize) == Fine ==> Judge(hs + [h], bodySize) == Check(h, bodySize)
    ensures Table(hs + [h]) == Table(hs)[h.0 := h.1]
  {
    assert (hs + [h])[..|hs|] == hs;
  }

  /** The lines up to `line` are `done`, and all of them are fine. */
  ghost predicate Midway(s: string, ptr: nat, line: nat, done: seq<Header>, all: seq<Header>) {
    AtLine(s, ptr, line) && done + Lines(s, ptr, line) == all && Judge(done, |s| - ptr) == Fine
  }

  lemma {:induction false} AtEnd(s: string, ptr: nat, line: nat, done: seq<Header>, all: seq<Header>)
    requires Midway(s, ptr, line, done, all) && LineEnd(s, ptr, line) == line
    ensures done == all
  {
    assert done + [] == done;
  }

  lemma {:induction false} AtNext(s: string, ptr: nat, line: nat, done: seq<Header>, all: seq<Header>)
    requires Midway(s, ptr, line, done, all) && LineEnd(s, ptr, line) != line
    ensures var nxt := LineEnd(s, ptr, line); var h := (NameAt(s, line), ContentAt(s, line, nxt));
      && Table(done + [h]) == Table(done)[h.0 := h.1]
      && if Check(h, |s| - ptr) == Fine then Midway(s, ptr, nxt + 2, done + [h], all)
         else Judge(all, |s| - ptr) == Check(h, |s| - ptr)
  {
    var nxt := LineEnd(s, ptr, line);
    var h := (NameAt(s, line), ContentAt(s, line, nxt));
    var rest := Lines(s, ptr, nxt + 2);
    assert done + ([h] + rest) == (done + [h]) + rest;
    OneMore(done, h, |s| - ptr);
    if Check(h, |s| - ptr) != Fine {
      JudgeStops(done + [h], rest, |s| - ptr);
    }
  }

  /** The loop of parse_request: the verdict, and the headers if it is fine. */
  method ScanHeaders(buffer: string, ptr: nat, start: nat, ghost all: seq<Header>)
    returns (v: Verdict, headers: map<string, string>)
    requires AtLine(buffer, ptr, start) && all == Lines(buffer, ptr, start)
    ensures v == Judge(all, |buffer| - ptr) && (v.Fine? ==> headers == Table(all))
  {
    var line := start;
    headers := map[];
    ghost var done := [];
    assert done + all == all;
    while true
      invariant Midway(buffer, ptr, line, done, all) && headers == Table(done)
      decreases |buffer| - line
    {
      var nxt := LineEnd(buffer, ptr, line);
      if nxt == line {
        AtEnd(buffer, ptr, line, done, all);
        return Fine, headers;
      }
      AtNext(buffer, ptr, line, done, all);
      var h := (NameAt(buffer, line), ContentAt(buffer, line, nxt));
      done := done + [h];
      headers := headers[h.0 := h.1];
      v := Check(h, |buffer| - ptr);
      if !v.Fine? {
        return;
      }
      line := nxt + 2;
    }
  }

  method ParseRequest(buffer: string) returns (o: Outcome)
    ensures o == Parse(buffer)
  {
    var blank := Find(buffer, BLANK, 0);
    if blank == None {
      return Incomplete;
    }
    var ptr := blank.value + 4;
    var v, headers := ScanHeaders(buffer, ptr, SecondLine(buffer, ptr), Lines(buffer, ptr, SecondLine(buffer, ptr)));
    match v {
      case Short => o := Incomplete;
      case Thrown => o := Throws;
      case Fine => o := Parsed(Request(Verb(buffer), Path(buffer), headers, Cut(buffer, ptr, |buffer|)));
    }
  }

  // ----- messages with clean headers

  /** The line's name and content follow from where it stands. */
  lemma {:induction false} NamedLine(s: string, line: nat, h: Header)
    requires CleanHeader(h) && LineOf(s, line, h)
    ensures NameAt(s, line) == h.0 && ContentAt(s, line, line + |Line(h)|) == h.1
  {
    var nxt := line + |Line(h)|;
    var pre, rest := s[..line], s[nxt..];
    CutIs(s, line, nxt);
    assert s == pre + (s[line..nxt] + rest);
    NameAndContent(s, pre, h, rest);
  }

  lemma {:induction false} NameAndContent(s: string, pre: string, h: Header, rest: string)
    requires CleanHeader(h) && s == pre + (Line(h) + rest)
    ensures NameAt(s, |pre|) == h.0 && |pre| + |Line(h)| <= |s| && ContentAt(s, |pre|, |pre| + |Line(h)|) == h.1
  {
    var more := COLON + (h.1 + rest);
    assert s == pre + (h.0 + more);
    FindAfter(s, pre, h.0, COLON, h.1 + rest);
    CutMiddle(s, pre, h.0, more);
    assert s == (pre + (h.0 + COLON)) + (h.1 + rest);
    CutMiddle(s, pre + (h.0 + COLON), h.1, rest);
  }

  lemma {:induction false} LinesEnd(s: string, ptr: nat, line: nat)
    requires AtLine(s, ptr, line) && Find(s, CRLF, line) == Some(line)
    ensures Lines(s, ptr, line) == []
  {
    assert LineEnd(s, ptr, line) == line;
  }

  lemma {:induction false} NextLine(s: string, ptr: nat, line: nat, h: Header)
    requires AtLine(s, ptr, line) && LineOf(s, line, h)
    ensures AtLine(s, ptr, line + |Line(h)| + 2)
  {
    assert LineEnd(s, ptr, line) == line + |Line(h)|;
  }

  lemma {:induction false} LinesStep(s: string, ptr: nat, line: nat, next: nat, h: Header, hs: seq<Header>)
    requires AtLine(s, ptr, line) && CleanHeader(h) && LineOf(s, line, h) && next == line + |Line(h)| + 2
    requires AtLine(s, ptr, next) && Lines(s, ptr, next) == hs
    ensures Lines(s, ptr, line) == [h] + hs
  {
    NamedLine(s, line, h);
    assert LineEnd(s, ptr, line) == line + |Line(h)|;
  }

  /** Cutting up the text of a header list gives the list back. */
  lemma {:induction false} LinesAre(s: string, ptr: nat, line: nat, hs: seq<Header>)
    requires AtLine(s, ptr, line) && LaidOut(s, line, hs) && CleanHeaders(hs)
    ensures Lines(s, ptr, line) == hs
    decreases |hs|
  {
    if hs == [] {
      LinesEnd(s, ptr, line);
    } else {
      var next := line + |Line(hs[0])| + 2;
      LaidOutRest(s, line, hs);
      NextLine(s, ptr, line, hs[0]);
      LinesAre(s, ptr, next, hs[1..]);
      LinesStep(s, ptr, line, next, hs[0], hs[1..]);
      FirstAndRest(hs);
    }
  }

  lemma {:induction false} MessageLines(start: string, hs: seq<Header>, body: string)
    requires Lacks(start, '\r') && CleanHeaders(hs)
    requires |HeaderText(hs)| >= 2 && Find(Message(start, hs, body), BLANK, 0) == Some(BodyStart(start, hs) - 4)
    ensures var s := Message(start, hs, body); var ptr := BodyStart(start, hs);
      |s| == ptr + |body| && Lines(s, ptr, SecondLine(s, ptr)) == hs
  {
    var s := Message(start, hs, body);
    var pre := start + CRLF;
    FindBehind(start, CRLF, HeaderText(hs) + body);
    assert s == pre + (HeaderText(hs) + body);
    assert SecondLine(s, BodyStart(start, hs)) == |pre|;
    Layout(s, pre, hs, body);
    LinesAre(s, BodyStart(start, hs), |pre|, hs);
  }

  /** How a whole message with clean lines parses, whatever part of its body has arrived. */
  lemma {:induction false} ParseMessage(start: string, hs: seq<Header>, body: string)
    requires Lacks(start, '\r') && CleanHeaders(hs)
    ensures var s := Message(start, hs, body);
      BodyStart(start, hs) <= |s| && Parse(s) == Finish(s, BodyStart(start, hs), hs)
  {
    FirstBlank(start, hs, body);
    MessageLines(start, hs, body);
    ParseIs(Message(start, hs, body), BodyStart(start, hs), hs);
  }

  lemma {:induction false} ParseIs(s: string, ptr: nat, hs: seq<Header>)
    requires ptr >= 4 && Find(s, BLANK, 0) == Some(ptr - 4) && Lines(s, ptr, SecondLine(s, ptr)) == hs
    ensures ptr <= |s| && Parse(s) == Finish(s, ptr, hs)
  {
  }

  // ----- what the Content-Length lines decide

  /** The header names another thing, or says how long the body is. */
  predicate Agrees(h: Header, bodySize: nat) {
    h.0 == "Content-Length" ==> Stoi(h.1) == Some(bodySize)
  }

  lemma {:induction false} JudgeFine(hs: seq<Header>, bodySize: nat)
    requires forall i | 0 <= i < |hs| :: Agrees(hs[i], bodySize)
    ensures Judge(hs, bodySize) == Fine
  {
    if hs != [] {
      JudgeFine(hs[..|hs| - 1], bodySize);
      assert Agrees(hs[|hs| - 1], bodySize);
    }
  }

  lemma {:induction false} JudgeFirst(hs: seq<Header>, bodySize: nat, i: nat)
    requires i < |hs| && !Agrees(hs[i], bodySize) && forall j | 0 <= j < i :: Agrees(hs[j], bodySize)
    ensures Judge(hs, bodySize) == if Stoi(hs[i].1) == None then Thrown else Short
  {
    JudgeFine(hs[..i], bodySize);
    assert hs[..i + 1][..i] == hs[..i];
    JudgeStops(hs[..i + 1], hs[i + 1..], bodySize);
    assert hs[..i + 1] + hs[i + 1..] == hs;
  }

  lemma {:induction false} ParseByVerdict(start: string, hs: seq<Header>, body: string)
    requires Lacks(start, '\r') && CleanHeaders(hs)
    ensures var o := Parse(Message(start, hs, body));
      match Judge(hs, |body|) case Fine => o.Parsed? case Short => o == Incomplete case Thrown => o == Throws
  {
    ParseMessage(start, hs, body);
    assert |Message(start, hs, body)| - BodyStart(start, hs) == |body|;
  }

  /** A message with clean headers is a request if and only if each of its Content-Length lines says
      how long the body is; otherwise the first that does not makes the server wait, or throw when
      what it says is no number. */
  lemma {:induction false} LengthsDecide(start: string, hs: seq<Header>, body: string)
    requires Lacks(start, '\r') && CleanHeaders(hs)
    ensures Parse(Message(start, hs, body)).Parsed? <==> forall i | 0 <= i < |hs| :: Agrees(hs[i], |body|)
    ensures forall i | 0 <= i < |hs| && !Agrees(hs[i], |body|) && (forall j | 0 <= j < i :: Agrees(hs[j], |body|)) ::
      Parse(Message(start, hs, body)) == if Stoi(hs[i].1) == None then Throws else Incomplete
  {
    ParseByVerdict(start, hs, body);
    if forall i | 0 <= i < |hs| :: Agrees(hs[i], |body|) {
      JudgeFine(hs, |body|);
    } else {
      var i := FirstBad(hs, |body|, 0);
      JudgeFirst(hs, |body|, i);
    }
  }

  lemma {:induction false} FirstBad(hs: seq<Header>, bodySize: nat, from: nat) returns (i: nat)
    requires from <= |hs| && (forall j | 0 <= j < from :: Agrees(hs[j], bodySize))
    requires exists j | 0 <= j < |hs| :: !Agrees(hs[j], bodySize)
    ensures i < |hs| && !Agrees(hs[i], bodySize) && forall j | 0 <= j < i :: Agrees(hs[j], bodySize)
    decreases |hs| - from
  {
    if Agrees(hs[from], bodySize) {
      i := FirstBad(hs, bodySize, from + 1);
    } else {
      i := from;
    }
  }

  /** With one Content-Length line that holds a number, the server waits if and only if the number is
      not the length of the body that has arrived, which may be too short or too long. */
  lemma {:induction false} WaitsIff(start: string, hs: seq<Header>, body: string, i: nat, n: nat)
    requires Lacks(start, '\r') && CleanHeaders(hs) && i < |hs| && n <= 0x7fff_ffff
    requires hs[i] == ("Content-Length", Digits(n)) && forall j | 0 <= j < |hs| && j != i :: hs[j].0 != "Content-Length"
    ensures Parse(Message(start, hs, body)) == Incomplete <==> n != |body|
    ensures Parse(Message(start, hs, body)) != Throws
  {
    StoiDigits(n);
    LengthsDecide(start, hs, body);
    assert Agrees(hs[i], |body|) <==> n == |body|;
    assert forall j | 0 <= j < |hs| && j != i :: Agrees(hs[j], |body|);
  }

  // ----- the table

  /** Of the lines of one name the last gives the entry. */
  lemma {:induction false} LastWins(hs: seq<Header>, i: nat)
    requires i < |hs| && forall j | i < j < |hs| :: hs[j].0 != hs[i].0
    ensures hs[i].0 in Table(hs) && Table(hs)[hs[i].0] == hs[i].1
  {
    if i < |hs| - 1 {
      LastWins(hs[..|hs| - 1], i);
    }
  }

  /** There are no other entries. */
  lemma {:induction false} TableNames(hs: seq<Header>, x: string)
    ensures x in Table(hs) <==> exists i | 0 <= i < |hs| :: hs[i].0 == x
  {
    if hs != [] {
      TableNames(hs[..|hs| - 1], x);
      assert hs[|hs| - 1].0 == x ==> x in Table(hs);
    }
  }

  // ----- lines that are not well formed

  lemma {:induction false} NotFound(s: string, c: char, from: nat)
    requires forall i | from <= i < |s| :: s[i] != c
    ensures Find(s, [c], from) == None
  {
    FindFirst(s, [c], from);
    var r := Find(s, [c], from);
    if r.Some? {
      OccursChar(s, [c], r.value, 0);
    }
  }

  /** Without a space the whole buffer is both verb and path; with one only, the path is all that
      follows it. */
  lemma {:induction false} OddRequestLine(s: string, i: nat)
    ensures Lacks(s, ' ') ==> Verb(s) == s && Path(s) == s
    ensures i < |s| && s[i] == ' ' && (forall j | 0 <= j < |s| && j != i :: s[j] != ' ') ==>
      Verb(s) == s[..i] && Path(s) == s[i + 1..]
  {
    CutIs(s, 0, |s|);
    assert s[0..|s|] == s;
    if Lacks(s, ' ') {
      NotFound(s, ' ', 0);
    } else if i < |s| && s[i] == ' ' && (forall j | 0 <= j < |s| && j != i :: s[j] != ' ') {
      assert s == s[..i] + (SPACE + s[i + 1..]);
      FindBehind(s[..i], SPACE, s[i + 1..]);
      NotFound(s, ' ', i + 1);
      CutIs(s, 0, i);
      CutIs(s, i + 1, |s|);
    }
  }

  /** With no colon and space left in the buffer, a line's name is the rest of the buffer and its
      content the buffer from the second byte to the line's end. */
  lemma {:induction false} NoColonLeft(s: string, line: nat, nxt: nat)
    requires 2 <= line <= nxt <= |s| && Find(s, ": ", line) == None
    ensures NameAt(s, line) == s[line..] && ContentAt(s, line, nxt) == s[1..nxt]
  {
    assert COLON == ": ";
    CutIs(s, line, |s|);
    CutIs(s, 1, nxt);
    assert ContentAt(s, line, nxt) == Substr(s, 1, nxt);
  }

  /** When the next colon and space are behind the line's end, the name runs on to them and the
      content from behind them to the end of the buffer. */
  lemma {:induction false} LateColon(s: string, line: nat, nxt: nat, i: nat)
    requires line <= nxt < i && i + 2 <= |s| && Find(s, ": ", line) == Some(i)
    ensures NameAt(s, line) == s[line..i] && ContentAt(s, line, nxt) == s[i + 2..]
  {
    assert COLON == ": ";
    CutIs(s, line, i);
    SubstrWraps(s, i + 2, nxt);
  }

  lemma {:induction false} SubstrWraps(s: string, from: nat, end: nat)
    requires end < from <= |s|
    ensures Substr(s, from, end) == s[from..]
  {
    CutIs(s, from, |s|);
  }

  // ----- reads

  function Flat(chunks: seq<string>): string {
    if chunks == [] then [] else Flat(chunks[..|chunks| - 1]) + chunks[|chunks| - 1]
  }

  /** After no read so far was there a request. */
  ghost predicate Pending(chunks: seq<string>) {
    chunks == [] || (Parse(Flat(chunks)) == Incomplete && Pending(chunks[..|chunks| - 1]))
  }

  class Connection {
    var inBuffer: string
    ghost var seen: seq<string>

    /** The buffer is what was read, and there was no request in it yet. */
    ghost predicate Waiting()
      reads this
    {
      inBuffer == Flat(seen) && Pending(seen)
    }

    constructor ()
      ensures Waiting() && seen == []
    {
      inBuffer, seen := "", [];
    }

    /** Appends one read and tries to parse. */
    method OnRead(chunk: string) returns (o: Outcome)
      requires inBuffer == Flat(seen)
      modifies this
      ensures seen == old(seen) + [chunk] && inBuffer == Flat(seen) && o == Parse(inBuffer)
    {
      inBuffer := inBuffer + chunk;
      assert (seen + [chunk])[..|seen|] == seen;
      seen := seen + [chunk];
      o := ParseRequest(inBuffer);
    }

    /** on_connection_event_ over the reads that the event finds ready. */
    method OnReadable(chunks: seq<string>) returns (o: Outcome, used: nat)
      requires Waiting()
      modifies this
      ensures used <= |chunks| && seen == old(seen) + chunks[..used]
      ensures o == Incomplete ==> used == |chunks| && Waiting()
      ensures o != Incomplete ==> used > 0 && o == Parse(Flat(seen)) && Pending(seen[..|seen| - 1])
    {
      used, o := 0, Incomplete;
      while used < |chunks|
        invariant used <= |chunks| && seen == old(seen) + chunks[..used] && Waiting() && o == Incomplete
      {
        ghost var before := seen;
        o := OnRead(chunks[used]);
        used := used + 1;
        assert seen[..|seen| - 1] == before;
        if o != Incomplete {
          break;
        }
      }
    }
  }
}
