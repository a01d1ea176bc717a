/** src/net/rest_client.cpp: the text of a request, and the reading of a response that arrives in
    arbitrary pieces. */
module RestClients {
  import opened Texts
  import opened HttpTexts
  import opened RestServers

  // ----- send_request_

  function RequestLine(verb: string, path: string): string {
    verb + (SPACE + (path + " HTTP/1.1"))
  }

  function RequestHeaders(host: string, body: string, contentType: string): seq<Header> {
    [("Host", host), ("Connection", "close")] +
    if body == [] then [] else [("Content-Type", contentType), ("Content-Length", Digits(|body|))]
  }

  function RequestText(verb: string, path: string, host: string, body: string, contentType: string): string {
    Message(RequestLine(verb, path), RequestHeaders(host, body, contentType), body)
  }

  lemma {:induction false} HeaderTextFront(h: Header, hs: seq<Header>)
    ensures HeaderText([h] + hs) == Line(h) + (CRLF + HeaderText(hs))
  {
    assert ([h] + hs)[1..] == hs;
  }

  /** Appending a header line to text whose header block is still to come. */
  lemma {:induction false} AppendLine(full: string, req: string, h: Header, hs: seq<Header>, body: string)
    requires full == req + (HeaderText([h] + hs) + body)
    ensures full == (req + Line(h) + CRLF) + (HeaderText(hs) + body)
  {
    HeaderTextFront(h, hs);
    var rest := HeaderText(hs);
    assert (Line(h) + (CRLF + rest)) + body == Line(h) + (CRLF + (rest + body));
  }

  /** A request's first line and headers, up to those of its body. */
  function RequestHead(verb: string, path: string, host: string): string {
    verb + (" " + (path + (" HTTP/1.1\r\nHost: " + (host + "\r\nConnection: close\r\n"))))
  }

  lemma {:induction false} HeadLiterals()
    ensures " HTTP/1.1\r\nHost: " == " HTTP/1.1" + (CRLF + ("Host" + COLON))
    ensures "\r\nConnection: close\r\n" == CRLF + (Line(("Connection", "close")) + CRLF)
  {
  }

  lemma {:induction false} HeadRegrouped(verb: string, path: string, http: string, name: string, host: string, line: string, rest: string)
    ensures (verb + (SPACE + (path + http))) + (CRLF + ((name + (COLON + host)) + (CRLF + (line + (CRLF + rest))))) ==
            (verb + (SPACE + (path + ((http + (CRLF + (name + COLON))) + (host + (CRLF + (line + CRLF))))))) + rest
  {
  }

  lemma {:induction false} HeadInFull(verb: string, path: string, host: string, rest: string)
    ensures RequestLine(verb, path) + (CRLF + (Line(("Host", host)) + (CRLF + (Line(("Connection", "close")) + (CRLF + rest))))) ==
            RequestHead(verb, path, host) + rest
  {
    HeadLiterals();
    HeadRegrouped(verb, path, " HTTP/1.1", "Host", host, Line(("Connection", "close")), rest);
  }

  lemma {:induction false} BodyLiterals()
    ensures "Content-Type: " == "Content-Type" + COLON
    ensures "\r\nContent-Length: " == CRLF + ("Content-Length" + COLON)
    ensures "\r\n\r\n" == CRLF + CRLF
  {
  }

  lemma {:induction false} TwoHeaders(h: Header, h': Header, body: string)
    ensures HeaderText([h, h']) + body == (h.0 + COLON) + (h.1 + ((CRLF + (h'.0 + COLON)) + (h'.1 + ((CRLF + CRLF) + body))))
  {
    HeaderTextFront(h', []);
    HeaderTextFront(h, [h']);
    assert [h] + [h'] == [h, h'] && [h'] + [] == [h'];
  }

  lemma {:induction false} BodyHeadersInFull(contentType: string, size: nat, body: string)
    ensures HeaderText([("Content-Type", contentType), ("Content-Length", Digits(size))]) + body ==
            "Content-Type: " + (contentType + ("\r\nContent-Length: " + (Digits(size) + ("\r\n\r\n" + body))))
  {
    BodyLiterals();
    TwoHeaders(("Content-Type", contentType), ("Content-Length", Digits(size)), body);
  }

  /** A request's text, byte for byte. */
  lemma {:induction false} RequestInFull(verb: string, path: string, host: string, body: string, contentType: string)
    ensures RequestText(verb, path, host, body, contentType) ==
      verb + (" " + (path + (" HTTP/1.1\r\nHost: " + (host + "\r\nConnection: close\r\n")))) +
      if body == [] then "\r\n"
      else "Content-Type: " + (contentType + ("\r\nContent-Length: " + (Digits(|body|) + ("\r\n\r\n" + body))))
  {
    var hs := RequestHeaders(host, body, contentType);
    var extra := hs[2..];
    assert hs == [("Host", host)] + ([("Connection", "close")] + extra);
    HeaderTextFront(("Host", host), [("Connection", "close")] + extra);
    HeaderTextFront(("Connection", "close"), extra);
    var rest := HeaderText(extra) + body;
    assert HeaderText(hs) + body == Line(("Host", host)) + (CRLF + (Line(("Connection", "close")) + (CRLF + rest)));
    HeadInFull(verb, path, host, rest);
    BodyHeadersInFull(contentType, |body|, body);
  }

  /** The text that send_request_ appends together. */
  method BuildRequest(verb: string, path: string, host: string, body: string, contentType: string) returns (req: string)
    ensures req == RequestText(verb, path, host, body, contentType)
    ensures req == verb + (" " + (path + (" HTTP/1.1\r\nHost: " + (host + "\r\nConnection: close\r\n")))) +
      if body == [] then "\r\n"
      else "Content-Type: " + (contentType + ("\r\nContent-Length: " + (Digits(|body|) + ("\r\n\r\n" + body))))
  {
    RequestInFull(verb, path, host, body, contentType);
    ghost var full := RequestText(verb, path, host, body, contentType);
    ghost var extra := RequestHeaders(host, body, contentType)[2..];
    req := verb + (SPACE + (path + " HTTP/1.1")) + CRLF;
    assert RequestHeaders(host, body, contentType) == [("Host", host)] + ([("Connection", "close")] + extra);
    AppendLine(full, req, ("Host", host), [("Connection", "close")] + extra, body);
    req := req + Line(("Host", host)) + CRLF;
    AppendLine(full, req, ("Connection", "close"), extra, body);
    req := req + Line(("Connection", "close")) + CRLF;
    if body != [] {
      assert extra == [("Content-Type", contentType)] + ([("Content-Length", Digits(|body|))] + []);
      AppendLine(full, req, ("Content-Type", contentType), [("Content-Length", Digits(|body|))] + [], body);
      req := req + Line(("Content-Type", contentType)) + CRLF;
      AppendLine(full, req, ("Content-Length", Digits(|body|)), [], body);
      req := req + Line(("Content-Length", Digits(|body|))) + CRLF;
    }
    req := req + CRLF + body;
  }

  // ----- what the server makes of it

  /** A request line that keeps its parts apart, and header values within their lines. */
  predicate CleanRequest(verb: string, path: string, host: string, contentType: string) {
    && Lacks(verb, ' ') && Lacks(verb, '\r') && Lacks(path, ' ') && Lacks(path, '\r')
    && Lacks(host, '\r') && Lacks(contentType, '\r')
  }

  lemma {:induction false} DigitsLack(n: nat)
    ensures Lacks(Digits(n), '\r')
  {
    DigitsAreNumber(n);
  }

  lemma {:induction false} RequestIsClean(verb: string, path: string, host: string, body: string, contentType: string)
    requires CleanRequest(verb, path, host, contentType)
    ensures Lacks(RequestLine(verb, path), '\r') && CleanHeaders(RequestHeaders(host, body, contentType))
  {
    DigitsLack(|body|);
  }

  lemma {:induction false} VerbAndPath(s: string, verb: string, path: string, rest: string)
    requires Lacks(verb, ' ') && Lacks(path, ' ') && s == verb + (SPACE + (path + (SPACE + rest)))
    ensures Verb(s) == verb && Path(s) == path
  {
    FindBehind(verb, SPACE, path + (SPACE + rest));
    CutMiddle(s, [], verb, SPACE + (path + (SPACE + rest)));
    assert [] + s == s;
    var pre := verb + SPACE;
    assert s == pre + (path + (SPACE + rest));
    FindAfter(s, pre, path, SPACE, rest);
    CutMiddle(s, pre, path, SPACE + rest);
  }

  /** The verdict on a request's headers when `size` bytes of its body are there. */
  lemma {:induction false} RequestVerdict(host: string, body: string, contentType: string, size: nat)
    ensures Judge(RequestHeaders(host, body, contentType), size) ==
      if body == [] || (|body| <= 0x7fff_ffff && size == |body|) then Fine
      else if |body| <= 0x7fff_ffff then Short else Thrown
  {
    var hs := RequestHeaders(host, body, contentType);
    assert hs[..2][..1] == [("Host", host)] && hs[..1][..0] == [];
    assert Judge(hs[..1], size) == Fine;
    assert Judge(hs[..2], size) == Fine;
    if body != [] {
      StoiDigits(|body|);
      assert hs[..3][..2] == hs[..2] && hs[..4] == hs;
      assert Judge(hs[..3], size) == Fine;
    } else {
      assert hs == hs[..2];
    }
  }

  lemma {:induction false} LineSplit(verb: string, path: string, rest: string)
    ensures RequestLine(verb, path) + rest == verb + (SPACE + (path + (SPACE + ("HTTP/1.1" + rest))))
  {
    assert " HTTP/1.1" == SPACE + "HTTP/1.1";
  }

  /** Once the headers are there, a request parses exactly when its whole body is. */
  lemma {:induction false} WholeHeaders(verb: string, path: string, host: string, body: string, contentType: string, part: string)
    requires CleanRequest(verb, path, host, contentType) && |part| <= |body|
    ensures var hs := RequestHeaders(host, body, contentType);
      Parse(Message(RequestLine(verb, path), hs, part)) ==
        if |body| > 0x7fff_ffff then Throws
        else if |part| < |body| then Incomplete
        else Parsed(Request(verb, path, Table(hs), part))
  {
    var line, hs := RequestLine(verb, path), RequestHeaders(host, body, contentType);
    var s := Message(line, hs, part);
    RequestIsClean(verb, path, host, body, contentType);
    ParseMessage(line, hs, part);
    RequestVerdict(host, body, contentType, |part|);
    LineSplit(verb, path, CRLF + (HeaderText(hs) + part));
    VerbAndPath(s, verb, path, "HTTP/1.1" + (CRLF + (HeaderText(hs) + part)));
    BodyOf(s, line, hs, part);
  }

  lemma {:induction false} BodyOf(s: string, line: string, hs: seq<Header>, part: string)
    requires s == Message(line, hs, part)
    ensures |s| == BodyStart(line, hs) + |part| && Cut(s, BodyStart(line, hs), |s|) == part
  {
    var pre := line + (CRLF + HeaderText(hs));
    assert s == pre + (part + []);
    CutMiddle(s, pre, part, []);
  }

  lemma {:induction false} MessagePrefix(line: string, hs: seq<Header>, body: string, k: nat)
    requires BodyStart(line, hs) <= k <= |Message(line, hs, body)|
    ensures k - BodyStart(line, hs) <= |body|
    ensures Message(line, hs, body)[..k] == Message(line, hs, body[..k - BodyStart(line, hs)])
  {
    var pre := line + (CRLF + HeaderText(hs));
    assert Message(line, hs, body) == pre + body;
    assert Message(line, hs, body[..k - |pre|]) == pre + body[..k - |pre|];
  }

  /** Of all prefixes of a request only the whole parses, and gives back what was asked; but a body
      whose length an int cannot hold makes the server throw. */
  lemma {:induction false} OnlyWholeRequestParses(verb: string, path: string, host: string, body: string, contentType: string, k: nat)
    requires CleanRequest(verb, path, host, contentType) && k <= |RequestText(verb, path, host, body, contentType)|
    ensures var hs := RequestHeaders(host, body, contentType); var s := RequestText(verb, path, host, body, contentType);
      Parse(s[..k]) ==
        if k < BodyStart(RequestLine(verb, path), hs) then Incomplete
        else if |body| > 0x7fff_ffff then Throws
        else if k < |s| then Incomplete
        else Parsed(Request(verb, path, Table(hs), body))
  {
    var line, hs := RequestLine(verb, path), RequestHeaders(host, body, contentType);
    RequestIsClean(verb, path, host, body, contentType);
    if k < BodyStart(line, hs) {
      NoBlankYet(line, hs, body, k);
    } else {
      var part := body[..k - BodyStart(line, hs)];
      MessagePrefix(line, hs, body, k);
      WholeHeaders(verb, path, host, body, contentType, part);
      BodyOf(Message(line, hs, body), line, hs, body);
    }
  }

  /** The headers the server ends up with. */
  lemma {:induction false} RequestTable(host: string, body: string, contentType: string)
    ensures Table(RequestHeaders(host, body, contentType)) ==
      if body == [] then map["Host" := host, "Connection" := "close"]
      else map["Host" := host, "Connection" := "close", "Content-Type" := contentType, "Content-Length" := Digits(|body|)]
  {
    var hs := RequestHeaders(host, body, contentType);
    assert hs[..2][..1] == [("Host", host)] && hs[..1][..0] == [];
    assert Table(hs[..1]) == map["Host" := host];
    assert Table(hs[..2]) == map["Host" := host, "Connection" := "close"];
    if body != [] {
      assert hs[..3][..2] == hs[..2] && hs[..4] == hs;
      assert Table(hs[..3]) == map["Host" := host, "Connection" := "close", "Content-Type" := contentType];
    } else {
      assert hs == hs[..2];
    }
  }

  // ----- any split into reads

  predicate NoneEmpty(chunks: seq<string>) {
    forall i | 0 <= i < |chunks| :: chunks[i] != []
  }

  /** `whole` read in pieces so far: a prefix, and a proper one if another piece follows. */
  lemma {:induction false} PiecesArePrefix(chunks: seq<string>, n: nat)
    requires n <= |chunks| && NoneEmpty(chunks)
    ensures Flat(chunks[..n]) <= Flat(chunks) && (n < |chunks| ==> |Flat(chunks[..n])| < |Flat(chunks)|)
    decreases |chunks| - n
  {
    if n == |chunks| {
      assert chunks[..n] == chunks;
    } else {
      PiecesArePrefix(chunks, n + 1);
      assert chunks[..n + 1][..n] == chunks[..n];
      assert Flat(chunks[..n + 1]) == Flat(chunks[..n]) + chunks[n];
    }
  }

  lemma {:induction false} PendingUntil(chunks: seq<string>, n: nat)
    requires n <= |chunks| && forall k | 0 < k <= n :: Parse(Flat(chunks[..k])) == Incomplete
    ensures Pending(chunks[..n])
  {
    if n > 0 {
      PendingUntil(chunks, n - 1);
      assert chunks[..n][..n - 1] == chunks[..n - 1];
    }
  }

  /** However a request is cut into reads, the server waits until the last of them and then has it. */
  lemma {:induction false} RequestSurvivesSplitting(verb: string, path: string, host: string, body: string, contentType: string,
                                                    chunks: seq<string>)
    requires CleanRequest(verb, path, host, contentType) && |body| <= 0x7fff_ffff
    requires NoneEmpty(chunks) && Flat(chunks) == RequestText(verb, path, host, body, contentType)
    ensures chunks != [] && Pending(chunks[..|chunks| - 1])
    ensures Parse(Flat(chunks)) == Parsed(Request(verb, path, Table(RequestHeaders(host, body, contentType)), body))
  {
    var s := Flat(chunks);
    assert s != [];
    forall k | 0 < k <= |chunks| - 1
      ensures Parse(Flat(chunks[..k])) == Incomplete
    {
      PiecesArePrefix(chunks, k);
      var part := Flat(chunks[..k]);
      assert part == s[..|part|];
      OnlyWholeRequestParses(verb, path, host, body, contentType, |part|);
    }
    PendingUntil(chunks, |chunks| - 1);
    assert s == s[..|s|];
    OnlyWholeRequestParses(verb, path, host, body, contentType, |s|);
  }
}
