/** The way back: serialize_response of sim/http/rest_server.cpp, and recv_response_ of
    src/net/rest_client.cpp, which searches for the end of the headers as the reads come in. */
module RestResponses {
  import opened Options
  import opened Texts
  import opened HttpTexts
  import opened RestServers
  import opened RestClients

  const HTTP := "HTTP/1.1"

  // ----- serialize_response

  function Reason(status: int): string {
    match status
    case 200 => "OK"
    case 400 => "Bad Request"
    case 404 => "Not Found"
    case 500 => "Internal Server Error"
    case _ => "Unknown Status"
  }

  function StatusLine(status: int): string {
    HTTP + (SPACE + (ToString(status) + (SPACE + Reason(status))))
  }

  function ResponseHeaders(contentType: string, body: string): seq<Header> {
    [("Content-Type", contentType), ("Content-Length", Digits(|body|)), ("Connection", "close")]
  }

  function ResponseText(status: int, contentType: string, body: string): string {
    Message(StatusLine(status), ResponseHeaders(contentType, body), body)
  }

  lemma {:induction false} ThreeHeaders(h1: Header, h2: Header, h3: Header, body: string)
    ensures HeaderText([h1, h2, h3]) + body ==
            (h1.0 + COLON) + (h1.1 + ((CRLF + (h2.0 + COLON)) + (h2.1 + ((CRLF + (Line(h3) + CRLF)) + (CRLF + body)))))
  {
    HeaderTextFront(h1, [h2, h3]);
    TwoHeaders(h2, h3, body);
    assert [h1] + [h2, h3] == [h1, h2, h3];
    assert (Line(h1) + (CRLF + HeaderText([h2, h3]))) + body == Line(h1) + (CRLF + (HeaderText([h2, h3]) + body));
  }

  lemma {:induction false} StatusRegrouped(http: string, t: string, reason: string, rest: string)
    ensures (http + (SPACE + (t + (SPACE + reason)))) + rest == (http + SPACE) + (t + (SPACE + (reason + rest)))
  {
  }

  /** A response's text, byte for byte. */
  lemma {:induction false} ResponseInFull(status: int, contentType: string, body: string)
    ensures ResponseText(status, contentType, body) ==
      "HTTP/1.1 " + (ToString(status) + (" " +
      ((match status case 200 => "OK" case 400 => "Bad Request" case 404 => "Not Found" case 500 => "Internal Server Error"
        case _ => "Unknown Status") +
      ("\r\n" + ("Content-Type: " + (contentType + ("\r\nContent-Length: " + (Digits(|body|) +
      ("\r\nConnection: close\r\n" + ("\r\n" + body))))))))))
  {
    BodyLiterals();
    HeadLiterals();
    assert "HTTP/1.1 " == HTTP + SPACE;
    var rest := HeaderText(ResponseHeaders(contentType, body)) + body;
    StatusRegrouped(HTTP, ToString(status), Reason(status), CRLF + rest);
    ThreeHeaders(("Content-Type", contentType), ("Content-Length", Digits(|body|)), ("Connection", "close"), body);
  }

  lemma {:induction false} DigitsOf(n: nat)
    requires n < 1000
    ensures n >= 100 ==> Digits(n) == [DigitChar(n / 100), DigitChar(n / 10 % 10), DigitChar(n % 10)]
  {
    if n >= 100 {
      assert Digits(n / 10 / 10) == [DigitChar(n / 100)];
      assert Digits(n / 10) == Digits(n / 10 / 10) + [DigitChar(n / 10 % 10)];
    }
  }

  lemma {:induction false} Prefix(line: string, rest: string)
    ensures line <= line + rest
  {
  }

  lemma {:induction false} FirstLine(status: int, contentType: string, body: string)
    ensures "HTTP/1.1 " + (ToString(status) + (" " + (Reason(status) + "\r\n"))) <= ResponseText(status, contentType, body)
  {
    var rest := HeaderText(ResponseHeaders(contentType, body)) + body;
    var reason := Reason(status);
    assert "HTTP/1.1 " == HTTP + SPACE;
    StatusRegrouped(HTTP, ToString(status), reason, CRLF + rest);
    StatusRegrouped(HTTP, ToString(status), reason, CRLF);
    assert StatusLine(status) + (CRLF + rest) == (StatusLine(status) + CRLF) + rest;
    Prefix(StatusLine(status) + CRLF, rest);
  }

  lemma {:induction false} Line200()
    ensures "HTTP/1.1 200 OK\r\n" == "HTTP/1.1 " + (ToString(200) + (" " + ("OK" + "\r\n")))
  {
    DigitsOf(200);
  }

  lemma {:induction false} Line400()
    ensures "HTTP/1.1 400 Bad Request\r\n" == "HTTP/1.1 " + (ToString(400) + (" " + ("Bad Request" + "\r\n")))
  {
    DigitsOf(400);
  }

  lemma {:induction false} Line404()
    ensures "HTTP/1.1 404 Not Found\r\n" == "HTTP/1.1 " + (ToString(404) + (" " + ("Not Found" + "\r\n")))
  {
    DigitsOf(404);
  }

  lemma {:induction false} Line500()
    ensures "HTTP/1.1 500 Internal Server Error\r\n" == "HTTP/1.1 " + (ToString(500) + (" " + ("Internal Server Error" + "\r\n")))
  {
    DigitsOf(500);
    InternalError();
    assert "HTTP/1.1 500" == "HTTP/1.1 " + ToString(500);
  }

  lemma {:induction false} InternalError()
    ensures "HTTP/1.1 500 Internal Server Error\r\n" == "HTTP/1.1 500" + (" " + ("Internal Server Error" + "\r\n"))
  {
  }

  lemma {:induction false} OtherLine(t: string)
    ensures "HTTP/1.1 " + t + " Unknown Status\r\n" == "HTTP/1.1 " + (t + (" " + ("Unknown Status" + "\r\n")))
  {
    assert " Unknown Status\r\n" == " " + ("Unknown Status" + "\r\n");
  }

  /** The first line of every response. */
  lemma {:induction false} FirstLines(status: int, contentType: string, body: string)
    ensures "HTTP/1.1 200 OK\r\n" <= ResponseText(200, contentType, body)
    ensures "HTTP/1.1 400 Bad Request\r\n" <= ResponseText(400, contentType, body)
    ensures "HTTP/1.1 404 Not Found\r\n" <= ResponseText(404, contentType, body)
    ensures "HTTP/1.1 500 Internal Server Error\r\n" <= ResponseText(500, contentType, body)
    ensures status !in {200, 400, 404, 500} ==>
      "HTTP/1.1 " + ToString(status) + " Unknown Status\r\n" <= ResponseText(status, contentType, body)
  {
    Line200();
    FirstLine(200, contentType, body);
    Line400();
    FirstLine(400, contentType, body);
    Line404();
    FirstLine(404, contentType, body);
    Line500();
    FirstLine(500, contentType, body);
    OtherLine(ToString(status));
    FirstLine(status, contentType, body);
  }

  /** The text that serialize_response appends together. */
  method BuildResponse(status: int, contentType: string, body: string) returns (response: string)
    ensures response == ResponseText(status, contentType, body)
  {
    var d := Digits(|body|);
    ghost var full := ResponseText(status, contentType, body);
    response := HTTP + (SPACE + (ToString(status) + (SPACE + Reason(status)))) + CRLF;
    assert ResponseHeaders(contentType, body) == [("Content-Type", contentType)] + ([("Content-Length", d)] + ([("Connection", "close")] + []));
    AppendLine(full, response, ("Content-Type", contentType), [("Content-Length", d)] + ([("Connection", "close")] + []), body);
    response := response + Line(("Content-Type", contentType)) + CRLF;
    AppendLine(full, response, ("Content-Length", d), [("Connection", "close")] + [], body);
    response := response + Line(("Content-Length", d)) + CRLF;
    AppendLine(full, response, ("Connection", "close"), [], body);
    response := response + Line(("Connection", "close")) + CRLF;
    response := response + CRLF + body;
  }

  // ----- recv_response_, on the whole text

  /** Received is a parsed response, Failed the empty one returned on a format error, Throws an
      exception of std::stoi, and Undefined a status line whose search runs off the string. */
  datatype Reply = Received(status: int, headers: map<string, string>, body: string) | Failed | Throws | Undefined

  /** A header line cut at its first colon and space; None is a format error. */
  function SplitLine(line: string): Option<Header> {
    match Find(line, COLON, 0)
    case None => None
    case Some(i) => Some((Cut(line, 0, i), Cut(line, i + 2, |line|)))
  }

  /** The header lines from `ptr` to the blank one; None is a format error. */
  function HeadLines(head: string, ptr: nat): Option<seq<Header>>
    decreases |head| - ptr
  {
    match Find(head, CRLF, ptr)
    case None => None
    case Some(nxt) =>
      if nxt == ptr then Some([])
      else
        match SplitLine(Cut(head, ptr, nxt))
        case None => None
        case Some(h) =>
          match HeadLines(head, nxt + 2)
          case None => None
          case Some(more) => Some([h] + more)
  }

  /** unordered_map::insert leaves an earlier entry of the same name in place. */
  function Insert(t: map<string, string>, h: Header): map<string, string> {
    if h.0 in t then t else t[h.0 := h.1]
  }

  /** response.headers */
  function FirstTable(hs: seq<Header>): map<string, string> {
    if hs == [] then map[] else Insert(FirstTable(hs[..|hs| - 1]), hs[|hs| - 1])
  }

  function ReadHeaders(head: string, ptr: nat, status: int, body: string): Reply {
    match Find(head, CRLF, ptr)
    case None => Failed
    case Some(i) =>
      match HeadLines(head, i + 2)
      case None => Failed
      case Some(hs) => Received(status, FirstTable(hs), body)
  }

  function ReadStatus(head: string, text: string, ptr: nat, body: string): Reply {
    match Stoi(text)
    case None => Reply.Throws
    case Some(status) => ReadHeaders(head, ptr, status, body)
  }

  function ReadHead(head: string, body: string): Reply {
    match Find(head, SPACE, 0)
    case None => Undefined
    case Some(i) =>
      match Find(head, SPACE, i + 1)
      case None => Undefined
      case Some(j) => ReadStatus(head, Cut(head, i + 1, j), j, body)
  }

  /** The reply that a whole response text amounts to. */
  function Interpret(s: string): Reply {
    match Find(s, BLANK, 0)
    case None => ReadHead(s, [])
    case Some(i) => ReadHead(s[..i + 4], s[i + 4..])
  }

  /** Of the lines of one name the first gives the entry. */
  lemma {:induction false} FirstWins(hs: seq<Header>, i: nat)
    requires i < |hs| && forall j | 0 <= j < i :: hs[j].0 != hs[i].0
    ensures hs[i].0 in FirstTable(hs) && FirstTable(hs)[hs[i].0] == hs[i].1
  {
    var front := hs[..|hs| - 1];
    if i < |hs| - 1 {
      FirstWins(front, i);
    } else {
      FirstTableNames(front, hs[i].0);
    }
  }

  /** There are no other entries. */
  lemma {:induction false} FirstTableNames(hs: seq<Header>, x: string)
    ensures x in FirstTable(hs) <==> exists i | 0 <= i < |hs| :: hs[i].0 == x
  {
    if hs != [] {
      FirstTableNames(hs[..|hs| - 1], x);
      assert hs[|hs| - 1].0 == x ==> x in FirstTable(hs);
    }
  }

  /** A header line without a colon is a format error. */
  lemma {:induction false} LineWithoutColon(head: string, ptr: nat, nxt: nat)
    requires Find(head, "\r\n", ptr) == Some(nxt) && ptr < nxt && forall k | ptr <= k < nxt :: head[k] != ':'
    ensures HeadLines(head, ptr) == None
  {
    var line := Cut(head, ptr, nxt);
    CutIs(head, ptr, nxt);
    FindFirst(line, COLON, 0);
  }

  // ----- the incremental search

  lemma {:induction false} FindLater(s: string, what: string, n: nat)
    requires NoneBetween(s, what, 0, n)
    ensures Find(s, what, 0) == Find(s, what, n)
  {
    FindFirst(s, what, n);
    match Find(s, what, n)
    case Some(i) => FindIs(s, what, 0, i);
    case None =>
      FindFirst(s, what, 0);
  }

  /** Searching on from three bytes before the new ones finds what a full search finds. */
  lemma {:induction false} SearchGoesOn(s: string, chunk: string)
    requires Find(s, BLANK, 0) == None
    ensures var from := (if |s| < 3 then 3 else |s|) - 3;
      Find(s + chunk, BLANK, from) == Find(s + chunk, BLANK, 0)
  {
    var from := (if |s| < 3 then 3 else |s|) - 3;
    FindFirst(s, BLANK, 0);
    forall j | 0 <= j < from
      ensures !OccursAt(s + chunk, BLANK, j)
    {
      assert (s + chunk)[..|s|] == s;
      OccursInPrefix(s + chunk, |s|, BLANK, j);
    }
    FindLater(s + chunk, BLANK, from);
  }

  /** A blank line found in the first part of a text is the first of the whole. */
  lemma {:induction false} FoundStays(s: string, more: string, i: nat)
    requires Find(s, BLANK, 0) == Some(i)
    ensures Find(s + more, BLANK, 0) == Some(i)
  {
    FindFirst(s, BLANK, 0);
    assert (s + more)[..|s|] == s;
    OccursInPrefix(s + more, |s|, BLANK, i);
    forall j | 0 <= j < i
      ensures !OccursAt(s + more, BLANK, j)
    {
      OccursInPrefix(s + more, |s|, BLANK, j);
    }
    FindIs(s + more, BLANK, 0, i);
  }

  /** The first loop of recv_response_: reads until the blank line, or to the end of the stream. */
  method RecvHead(chunks: seq<string>) returns (head: string, body: string, used: nat)
    ensures used <= |chunks|
    ensures match Find(Flat(chunks[..used]), BLANK, 0)
      case None => used == |chunks| && head == Flat(chunks) && body == []
      case Some(i) => head == Flat(chunks[..used])[..i + 4] && body == Flat(chunks[..used])[i + 4..]
  {
    head, body, used := "", "", 0;
    var total := 0;
    while used < |chunks|
      invariant used <= |chunks| && head == Flat(chunks[..used]) && total == |head|
      invariant Find(head, BLANK, 0) == None && body == []
    {
      SearchGoesOn(head, chunks[used]);
      assert chunks[..used + 1][..used] == chunks[..used];
      head := head + chunks[used];
      used := used + 1;
      var ptr := Find(head, BLANK, (if total < 3 then 3 else total) - 3);
      if ptr.Some? {
        body := head[ptr.value + 4..];
        head := head[..ptr.value + 4];
        return;
      }
      total := total + |chunks[used - 1]|;
    }
    assert chunks[..used] == chunks;
  }

  /** The loops that step over the status line up to a space. */
  method SkipTo(head: string, from: nat) returns (r: Option<nat>)
    requires from <= |head|
    ensures r == Find(head, SPACE, from)
  {
    var ptr := from;
    while ptr < |head| && head[ptr] != ' '
      invariant from <= ptr <= |head| && Find(head, SPACE, from) == Find(head, SPACE, ptr)
    {
      OccursIs(head, SPACE, ptr);
      ptr := ptr + 1;
    }
    if ptr < |head| {
      OccursIs(head, SPACE, ptr);
    }
    r := if ptr < |head| then Some(ptr) else None;
  }

  ghost function After(done: seq<Header>, more: Option<seq<Header>>): Option<seq<Header>> {
    if more == None then None else Some(done + more.value)
  }

  lemma {:induction false} AfterStep(done: seq<Header>, h: Header, more: Option<seq<Header>>)
    ensures After(done + [h], more) == if more == None then None else After(done, Some([h] + more.value))
  {
    if more.Some? {
      assert (done + [h]) + more.value == done + ([h] + more.value);
    }
  }

  lemma {:induction false} FirstTableStep(done: seq<Header>, h: Header)
    ensures FirstTable(done + [h]) == Insert(FirstTable(done), h)
  {
    assert (done + [h])[..|done|] == done;
  }

  /** One line further. */
  lemma {:induction false} HeadTurn(head: string, ptr: nat, nxt: nat, line: string, done: seq<Header>, all: Option<seq<Header>>)
    requires After(done, HeadLines(head, ptr)) == all && Find(head, CRLF, ptr) == Some(nxt) && nxt != ptr
    requires line == Cut(head, ptr, nxt)
    ensures match SplitLine(line)
      case None => all == None
      case Some(h) => After(done + [h], HeadLines(head, nxt + 2)) == all
  {
    match SplitLine(line)
    case None =>
    case Some(h) => AfterStep(done, h, HeadLines(head, nxt + 2));
  }

  lemma {:induction false} HeadEnds(head: string, ptr: nat, done: seq<Header>)
    ensures Find(head, CRLF, ptr) == None ==> After(done, HeadLines(head, ptr)) == None
    ensures Find(head, CRLF, ptr) == Some(ptr) ==> After(done, HeadLines(head, ptr)) == Some(done)
  {
    assert done + [] == done;
  }

  /** What one turn of the header loop meets: a header line, the blank line, or a format error. */
  datatype Turn = More(header: Header, next: nat) | End | Bad

  method NextHeader(head: string, ptr: nat, ghost done: seq<Header>, ghost all: Option<seq<Header>>) returns (turn: Turn)
    requires After(done, HeadLines(head, ptr)) == all
    ensures match turn
      case More(h, next) => ptr < next <= |head| && After(done + [h], HeadLines(head, next)) == all
      case End => all == Some(done)
      case Bad => all == None
  {
    HeadEnds(head, ptr, done);
    var nxt := Find(head, CRLF, ptr);
    if nxt == None {
      return Bad;
    }
    if nxt.value == ptr {
      return End;
    }
    var line := Cut(head, ptr, nxt.value);
    HeadTurn(head, ptr, nxt.value, line, done, all);
    var h := SplitLine(line);
    turn := if h == None then Bad else More(h.value, nxt.value + 2);
  }

  /** The header loop of recv_response_; ok is false on a format error. */
  method RecvHeaders(head: string, start: nat, ghost all: Option<seq<Header>>)
    returns (ok: bool, headers: map<string, string>)
    requires all == HeadLines(head, start)
    ensures ok <==> all.Some?
    ensures ok ==> headers == FirstTable(all.value)
  {
    var ptr := start;
    headers := map[];
    ghost var done := [];
    assert all.Some? ==> [] + all.value == all.value;
    while true
      invariant After(done, HeadLines(head, ptr)) == all && headers == FirstTable(done)
      decreases |head| - ptr
    {
      var turn := NextHeader(head, ptr, done, all);
      if !turn.More? {
        return turn.End?, headers;
      }
      FirstTableStep(done, turn.header);
      headers := Insert(headers, turn.header);
      done := done + [turn.header];
      ptr := turn.next;
    }
  }

  method RecvStatus(head: string, body: string) returns (r: Reply)
    ensures r == ReadHead(head, body)
  {
    var i := SkipTo(head, 0);
    if i == None {
      return Undefined;
    }
    var j := SkipTo(head, i.value + 1);
    if j == None {
      return Undefined;
    }
    var status := Stoi(Cut(head, i.value + 1, j.value));
    if status == None {
      return Reply.Throws;
    }
    var line := Find(head, CRLF, j.value);
    if line == None {
      return Failed;
    }
    var ok, headers := RecvHeaders(head, line.value + 2, HeadLines(head, line.value + 2));
    r := if ok then Received(status.value, headers, body) else Failed;
  }

  lemma {:induction false} FlatSplit(chunks: seq<string>, n: nat)
    requires n <= |chunks|
    ensures Flat(chunks) == Flat(chunks[..n]) + Flat(chunks[n..])
    decreases |chunks|
  {
    if n == |chunks| {
      assert chunks[..n] == chunks && chunks[n..] == [];
    } else {
      var front := chunks[..|chunks| - 1];
      FlatSplit(front, n);
      assert front[..n] == chunks[..n];
      assert chunks[n..][..|chunks| - 1 - n] == front[n..];
    }
  }

  /** The last loop of recv_response_: whatever else arrives belongs to the body. */
  method RecvBody(chunks: seq<string>, used: nat, body: string) returns (all: string)
    requires used <= |chunks|
    ensures all == body + Flat(chunks[used..])
  {
    all := body;
    var i := used;
    while i < |chunks|
      invariant used <= i <= |chunks| && all == body + Flat(chunks[used..i])
    {
      assert chunks[used..i + 1][..i - used] == chunks[used..i];
      all := all + chunks[i];
      i := i + 1;
    }
    assert chunks[used..|chunks|] == chunks[used..];
  }

  /** recv_response_ over the reads of a connection up to its end: the answer depends on the bytes
      alone, not on how they were cut. */
  method RecvResponse(chunks: seq<string>) returns (r: Reply)
    ensures r == Interpret(Flat(chunks))
  {
    var head, body, used := RecvHead(chunks);
    var all := RecvBody(chunks, used, body);
    r := RecvStatus(head, all);
    FlatSplit(chunks, used);
    SameReply(Flat(chunks[..used]), Flat(chunks[used..]), head, all);
  }

  lemma {:induction false} SameReply(s: string, more: string, head: string, all: string)
    requires match Find(s, BLANK, 0)
      case None => more == [] && head == s && all == []
      case Some(i) => head == s[..i + 4] && all == s[i + 4..] + more
    ensures ReadHead(head, all) == Interpret(s + more)
  {
    match Find(s, BLANK, 0)
    case None => assert s + more == s;
    case Some(i) =>
      FoundStays(s, more, i);
      assert (s + more)[..i + 4] == head && (s + more)[i + 4..] == all;
  }

  // ----- the round trip

  lemma {:induction false} LineParts(h: Header)
    requires CleanHeader(h)
    ensures SplitLine(Line(h)) == Some(h)
  {
    var line := Line(h);
    FindBehind(h.0, COLON, h.1);
    assert line == [] + (h.0 + (COLON + h.1));
    CutMiddle(line, [], h.0, COLON + h.1);
    assert line == (h.0 + COLON) + (h.1 + []);
    CutMiddle(line, h.0 + COLON, h.1, []);
  }

  lemma {:induction false} HeadStep(head: string, ptr: nat, next: nat, h: Header, hs: seq<Header>)
    requires LineOf(head, ptr, h) && CleanHeader(h) && next == ptr + |Line(h)| + 2 && HeadLines(head, next) == Some(hs)
    ensures HeadLines(head, ptr) == Some([h] + hs)
  {
    LineParts(h);
  }

  lemma {:induction false} HeadEnd(head: string, ptr: nat)
    requires LaidOut(head, ptr, [])
    ensures HeadLines(head, ptr) == Some([])
  {
  }

  /** The client cuts the text of a header list back into the list. */
  lemma {:induction false} HeadLinesAre(s: string, ptr: nat, hs: seq<Header>)
    requires CleanHeaders(hs) && LaidOut(s, ptr, hs)
    ensures HeadLines(s, ptr) == Some(hs)
    decreases |hs|
  {
    if hs == [] {
      HeadEnd(s, ptr);
    } else {
      var next := ptr + |Line(hs[0])| + 2;
      LaidOutRest(s, ptr, hs);
      HeadLinesAre(s, next, hs[1..]);
      HeadStep(s, ptr, next, hs[0], hs[1..]);
      FirstAndRest(hs);
    }
  }

  lemma {:induction false} StatusIsClean(status: int)
    ensures Lacks(ToString(status), ' ') && Lacks(ToString(status), '\r')
  {
    DigitsAreNumber(if status < 0 then -status else status);
  }

  lemma {:induction false} ReasonIsClean(status: int)
    ensures Lacks(SPACE + Reason(status), '\r')
  {
  }

  lemma {:induction false} StatusLineIsClean(status: int)
    ensures Lacks(StatusLine(status), '\r')
  {
    StatusIsClean(status);
    ReasonIsClean(status);
    LacksBoth(ToString(status), SPACE + Reason(status));
    LacksBoth(HTTP, SPACE);
    LacksBoth(HTTP + SPACE, ToString(status) + (SPACE + Reason(status)));
    assert StatusLine(status) == (HTTP + SPACE) + (ToString(status) + (SPACE + Reason(status)));
  }

  lemma {:induction false} LacksBoth(a: string, b: string)
    requires Lacks(a, '\r') && Lacks(b, '\r')
    ensures Lacks(a + b, '\r')
  {
  }

  /** Where a status line's parts stand. */
  lemma {:induction false} StatusParts(head: string, http: string, t: string, reason: string, rest: string)
    requires head == http + (SPACE + (t + (reason + (CRLF + rest))))
    requires Lacks(http, ' ') && Lacks(t, ' ') && Lacks(reason, '\r') && SPACE <= reason
    ensures var i := |http|; var j := |http| + 1 + |t|;
      && Find(head, SPACE, 0) == Some(i) && Find(head, SPACE, i + 1) == Some(j)
      && j <= |head| && Cut(head, i + 1, j) == t && Find(head, CRLF, j) == Some(j + |reason|)
  {
    var more := reason + (CRLF + rest);
    FindBehind(http, SPACE, t + more);
    var pre := http + SPACE;
    assert head == pre + (t + more);
    assert more == SPACE + more[1..];
    FindAfter(head, pre, t, SPACE, more[1..]);
    CutMiddle(head, pre, t, more);
    assert head == (pre + t) + more;
    FindAfter(head, pre + t, reason, CRLF, rest);
  }

  lemma {:induction false} ReadIs(head: string, i: nat, j: nat, k: nat, status: int, body: string)
    requires Find(head, SPACE, 0) == Some(i) && Find(head, SPACE, i + 1) == Some(j)
    requires j <= |head| && Stoi(Cut(head, i + 1, j)) == Some(status) && Find(head, CRLF, j) == Some(k)
    ensures ReadHead(head, body) == match HeadLines(head, k + 2)
      case None => Failed
      case Some(hs) => Received(status, FirstTable(hs), body)
  {
    ReadStatusIs(head, Cut(head, i + 1, j), j, k, status, body);
  }

  lemma {:induction false} ReadStatusIs(head: string, t: string, j: nat, k: nat, status: int, body: string)
    requires Stoi(t) == Some(status) && Find(head, CRLF, j) == Some(k)
    ensures ReadStatus(head, t, j, body) == match HeadLines(head, k + 2)
      case None => Failed
      case Some(hs) => Received(status, FirstTable(hs), body)
  {
  }

  lemma {:induction false} StatusPieces(status: int) returns (t: string, reason: string)
    requires -0x8000_0000 <= status <= 0x7fff_ffff
    ensures StatusLine(status) == HTTP + (SPACE + (t + reason)) && Lacks(StatusLine(status), '\r')
    ensures Lacks(t, ' ') && Stoi(t) == Some(status) && Lacks(reason, '\r') && SPACE <= reason
  {
    t, reason := ToString(status), SPACE + Reason(status);
    StatusIsClean(status);
    ReasonIsClean(status);
    StatusLineIsClean(status);
    StoiOfString(status);
  }

  lemma {:induction false} PiecesRead(head: string, http: string, t: string, reason: string, rest: string,
                                      hs: seq<Header>, status: int, body: string)
    requires head == http + (SPACE + (t + (reason + (CRLF + rest))))
    requires Lacks(http, ' ') && Lacks(t, ' ') && Stoi(t) == Some(status) && Lacks(reason, '\r') && SPACE <= reason
    requires HeadLines(head, |http| + 1 + |t| + |reason| + 2) == Some(hs)
    ensures ReadHead(head, body) == Received(status, FirstTable(hs), body)
  {
    var j := |http| + 1 + |t|;
    StatusParts(head, http, t, reason, rest);
    ReadIs(head, |http|, j, j + |reason|, status, body);
  }

  /** Reading a head whose status line is made of these pieces. */
  lemma {:induction false} HeadReads(head: string, http: string, t: string, reason: string, hs: seq<Header>, status: int, body: string)
    requires head == Message(http + (SPACE + (t + reason)), hs, []) && CleanHeaders(hs)
    requires Lacks(http, ' ') && Lacks(t, ' ') && Stoi(t) == Some(status) && Lacks(reason, '\r') && SPACE <= reason
    ensures ReadHead(head, body) == Received(status, FirstTable(hs), body)
  {
    HeadRead(head, http + (SPACE + (t + reason)), hs);
    Unnest(head, http, t, reason, CRLF + (HeaderText(hs) + []));
    PiecesRead(head, http, t, reason, HeaderText(hs) + [], hs, status, body);
  }

  lemma {:induction false} Unnest(head: string, a: string, t: string, b: string, rest: string)
    requires head == (a + (SPACE + (t + b))) + rest
    ensures head == a + (SPACE + (t + (b + rest)))
  {
  }

  lemma {:induction false} HeadRead(head: string, line: string, hs: seq<Header>)
    requires head == Message(line, hs, []) && CleanHeaders(hs)
    ensures HeadLines(head, |line| + 2) == Some(hs)
  {
    assert head == (line + CRLF) + (HeaderText(hs) + []);
    Layout(head, line + CRLF, hs, []);
    HeadLinesAre(head, |line| + 2, hs);
  }

  lemma {:induction false} SplitAtBlank(line: string, hs: seq<Header>, body: string)
    requires Lacks(line, '\r') && CleanHeaders(hs)
    ensures Interpret(Message(line, hs, body)) == ReadHead(Message(line, hs, []), body)
  {
    var s, head := Message(line, hs, body), Message(line, hs, []);
    FirstBlank(line, hs, body);
    var n := BodyStart(line, hs);
    assert s == head + body;
    assert s[..n] == head && s[n..] == body;
  }

  lemma {:induction false} ResponseIsClean(contentType: string, body: string)
    requires Lacks(contentType, '\r')
    ensures CleanHeaders(ResponseHeaders(contentType, body))
  {
    DigitsLack(|body|);
  }

  lemma {:induction false} AnyResponse(line: string, http: string, t: string, reason: string, hs: seq<Header>, status: int, body: string)
    requires line == http + (SPACE + (t + reason)) && Lacks(line, '\r') && CleanHeaders(hs)
    requires Lacks(http, ' ') && Lacks(t, ' ') && Stoi(t) == Some(status) && Lacks(reason, '\r') && SPACE <= reason
    ensures Interpret(Message(line, hs, body)) == Received(status, FirstTable(hs), body)
  {
    SplitAtBlank(line, hs, body);
    HeadReads(Message(line, hs, []), http, t, reason, hs, status, body);
  }

  /** The client reads from a response's text the status, headers and body it was made of. */
  lemma {:induction false} ResponseRoundTrip(status: int, contentType: string, body: string)
    requires -0x8000_0000 <= status <= 0x7fff_ffff && Lacks(contentType, '\r')
    ensures Interpret(ResponseText(status, contentType, body)) ==
      Received(status, map["Content-Type" := contentType, "Content-Length" := Digits(|body|), "Connection" := "close"], body)
  {
    ResponseTable(contentType, body);
    ResponseIsClean(contentType, body);
    var t, reason := StatusPieces(status);
    AnyResponse(StatusLine(status), HTTP, t, reason, ResponseHeaders(contentType, body), status, body);
  }

  /** The headers the client ends up with. */
  lemma {:induction false} ResponseTable(contentType: string, body: string)
    ensures FirstTable(ResponseHeaders(contentType, body)) ==
      map["Content-Type" := contentType, "Content-Length" := Digits(|body|), "Connection" := "close"]
  {
    var hs := ResponseHeaders(contentType, body);
    assert hs[..3] == hs && hs[..3][..2] == hs[..2] && hs[..2][..1] == hs[..1] && hs[..1][..0] == [];
    assert FirstTable(hs[..1]) == map["Content-Type" := contentType];
    assert "Content-Length" != "Content-Type";
    assert FirstTable(hs[..2]) == map["Content-Type" := contentType, "Content-Length" := Digits(|body|)];
  }
}
