/** A client's request, cut up in any way on its way to the server. */
module HttpExchange {
  import opened Collections
  import opened NumStr
  import opened Powers
  import opened Wrappers
  import opened Streams
  import opened HttpText
  import opened HttpClient
  import opened HttpServer
  import Uri

  /** Takes in the body, `size` bytes at a time. */
  method ReceiveBody(server: MpoHttpd, size: nat) returns (body: string)
    requires server.stage == Rdy4RecvPost && server.postBytesRead == 0 && server.postBytes > 0 && size > 0
    modifies server`curBuf, server`postBytesRead, server`stage, server.stream
    ensures old(server.Ahead()) == body + server.Ahead()
    ensures server.stage == Rdy4SetHeader ==> |body| == server.postBytes
    ensures old(Calm(server.stream.events)) && |old(server.Ahead())| >= server.postBytes ==> server.stage == Rdy4SetHeader
  {
    body := "";
    ghost var all := server.Ahead();
    assert all == "" + all;
    while server.stage == Rdy4RecvPost
      invariant all == body + server.Ahead()
      invariant |body| == server.postBytesRead <= server.postBytes
      invariant server.stage == Rdy4RecvPost <==> server.postBytesRead < server.postBytes && server.stage != Rdy4Disconnect
      invariant server.stage == Rdy4SetHeader ==> server.postBytesRead == server.postBytes
      invariant server.stage == Rdy4RecvPost || server.stage == Rdy4SetHeader || server.stage == Rdy4Disconnect
      invariant old(Calm(server.stream.events)) ==>
                  Calm(server.stream.events) && (|all| >= server.postBytes ==> server.stage != Rdy4Disconnect)
      decreases server.stage == Rdy4RecvPost, server.postBytes - server.postBytesRead, Pending(server.stream.events)
    {
      var msg, bytes := server.Recv(size);
      Regroup3(body, bytes, server.Ahead());
      body := body + bytes;
    }
  }

  /** Cuts text into pieces of the given sizes; where a size is 0, there is a pause. */
  method Fragment(text: string, sizes: seq<nat>) returns (events: seq<Event>)
    ensures Incoming(events) == text && Calm(events)
  {
    events := [];
    var left := text;
    for i := 0 to |sizes|
      invariant Incoming(events) + left == text && Calm(events)
    {
      var n := if sizes[i] < |left| then sizes[i] else |left|;
      var event := if n == 0 then Timeout else Data(left[..n]);
      IncomingNext(events, event);
      assert Incoming(events) + left == Incoming(events) + left[..n] + left[n..];
      events, left := events + [event], left[n..];
    }
    if left != "" {
      IncomingNext(events, Data(left));
      events := events + [Data(left)];
    }
  }

  lemma {:induction false} IncomingNext(events: seq<Event>, event: Event)
    ensures Incoming(events + [event]) == Incoming(events) + if event.Data? then event.bytes else ""
  {
    if events == [] {
      assert events + [event] == [event] && [event][1..] == [];
    } else {
      IncomingNext(events[1..], event);
      assert (events + [event])[1..] == events[1..] + [event];
    }
  }

  /** What the caller of the client has to see to. */
  predicate Proper(host: string, userAgent: string, uri: string, otherHeaders: seq<Header>) {
    && NoEol(host) && NoEol(userAgent)
    && IsWord(uri) && Uri.Parse(uri).Some?
    && forall i | 0 <= i < |otherHeaders| :: Printable(otherHeaders[i])
  }

  lemma DigitsNoEol(s: string)
    requires AllDigits(s, 10)
    ensures NoEol(s)
  {}

  lemma HeadersPrintable(host: string, userAgent: string, uri: string, postLength: nat, otherHeaders: seq<Header>)
    requires Proper(host, userAgent, uri, otherHeaders)
    ensures var headers := OwnHeaders(host, userAgent, postLength) + otherHeaders;
            headers != [] && forall i | 0 <= i < |headers| :: Printable(headers[i])
  {
    OwnPrintable(host, userAgent, postLength);
  }

  lemma OwnPrintable(host: string, userAgent: string, postLength: nat)
    requires NoEol(host) && NoEol(userAgent)
    ensures forall i | 0 <= i < |OwnHeaders(host, userAgent, postLength)| :: Printable(OwnHeaders(host, userAgent, postLength)[i])
  {
    OwnNamesPrintable();
    DigitsMean(postLength, 10);
    DigitsNoEol(Digits(postLength, 10));
    ThreePrintable(Header("Host", host), Header("User-Agent", userAgent), Header(CONTENT_LENGTH, Digits(postLength, 10)));
  }

  lemma ThreePrintable(a: Header, b: Header, c: Header)
    requires Printable(a) && Printable(b) && Printable(c)
    ensures forall i | 0 <= i < 2 :: Printable(([a, b] + [])[i])
    ensures forall i | 0 <= i < 3 :: Printable(([a, b] + [c])[i])
  {}

  lemma OwnNamesPrintable()
    ensures NoEol("Host") && ':' !in "Host"
    ensures NoEol("User-Agent") && ':' !in "User-Agent"
    ensures NoEol(CONTENT_LENGTH) && ':' !in CONTENT_LENGTH
  {}

  predicate Names(headers: seq<Header>, name: string) {
    exists i :: 0 <= i < |headers| && headers[i].name == name
  }

  lemma {:induction false} MapOfNames(headers: seq<Header>, m: map<string, string>, name: string)
    ensures name in MapOf(headers, m) <==> name in m || Names(headers, name)
    decreases |headers|
  {
    if headers != [] {
      var h, rest := headers[0], headers[1..];
      MapOfNames(rest, m[h.name := h.value], name);
      assert forall i | 0 <= i < |rest| :: headers[i + 1] == rest[i];
      if h.name != name && Names(headers, name) {
        var i :| 0 <= i < |headers| && headers[i].name == name;
        assert rest[i - 1].name == name;
      }
    }
  }

  lemma {:induction false} MapOfLast(headers: seq<Header>, more: seq<Header>, m: map<string, string>, h: Header)
    requires !Names(more, h.name)
    ensures h.name in MapOf(headers + [h] + more, m) && MapOf(headers + [h] + more, m)[h.name] == h.value
    decreases |headers|
  {
    var all := headers + [h] + more;
    if headers == [] {
      assert all[0] == h && all[1..] == more;
      MapOfKeeps(more, m[h.name := h.value], h.name);
    } else {
      assert all[0] == headers[0] && all[1..] == headers[1..] + [h] + more;
      MapOfLast(headers[1..], more, m[headers[0].name := headers[0].value], h);
    }
  }

  lemma NamesOfRest(headers: seq<Header>, name: string)
    requires headers != []
    ensures Names(headers[1..], name) ==> Names(headers, name)
  {
    assert forall i | 0 <= i < |headers| - 1 :: headers[i + 1] == headers[1..][i];
  }

  lemma {:induction false} MapOfKeeps(headers: seq<Header>, m: map<string, string>, name: string)
    requires !Names(headers, name) && name in m
    ensures name in MapOf(headers, m) && MapOf(headers, m)[name] == m[name]
    decreases |headers|
  {
    if headers != [] {
      var rest := headers[1..];
      NamesOfRest(headers, name);
      MapOfKeeps(rest, m[headers[0].name := headers[0].value], name);
    }
  }

  /** What the client says of itself arrives under its name, unless its caller has said something else. */
  predicate OwnArrive(headers: map<string, string>, host: string, userAgent: string, otherHeaders: seq<Header>) {
    && (!Names(otherHeaders, "Host") ==> "Host" in headers && headers["Host"] == host)
    && (!Names(otherHeaders, "User-Agent") ==> "User-Agent" in headers && headers["User-Agent"] == userAgent)
  }

  lemma OwnHeadersArrive(host: string, userAgent: string, postLength: nat, otherHeaders: seq<Header>)
    ensures OwnArrive(MapOf(OwnHeaders(host, userAgent, postLength) + otherHeaders, map[]), host, userAgent, otherHeaders)
  {
    OtherNames();
    var length := if postLength == 0 then [] else [Header(CONTENT_LENGTH, Digits(postLength, 10))];
    var all := OwnHeaders(host, userAgent, postLength) + otherHeaders;
    var agent := Header("User-Agent", userAgent);
    if !Names(otherHeaders, "Host") {
      NotNamed([agent] + length, otherHeaders, "Host");
      assert all == [] + [Header("Host", host)] + ([agent] + length + otherHeaders);
      MapOfLast([], [agent] + length + otherHeaders, map[], Header("Host", host));
    }
    if !Names(otherHeaders, "User-Agent") {
      NotNamed(length, otherHeaders, "User-Agent");
      assert all == [Header("Host", host)] + [agent] + (length + otherHeaders);
      MapOfLast([Header("Host", host)], length + otherHeaders, map[], agent);
    }
  }

  lemma NotNamed(a: seq<Header>, b: seq<Header>, name: string)
    requires !Names(a, name) && !Names(b, name)
    ensures !Names(a + b, name)
  {}

  /** A header of the caller arrives with its value if no later one has its name. */
  lemma CallersHeaderArrives(host: string, userAgent: string, postLength: nat, before: seq<Header>, h: Header, behind: seq<Header>)
    requires !Names(behind, h.name)
    ensures var m := MapOf(OwnHeaders(host, userAgent, postLength) + (before + [h] + behind), map[]);
            h.name in m && m[h.name] == h.value
  {
    var own := OwnHeaders(host, userAgent, postLength);
    assert own + (before + [h] + behind) == own + before + [h] + behind;
    MapOfLast(own + before, behind, map[], h);
  }

  /** A POST of this client says its length exactly if that is not 0, or the caller has supplied one as a
      header. */
  lemma PostHasLengthIff(host: string, userAgent: string, postLength: nat, otherHeaders: seq<Header>)
    ensures CONTENT_LENGTH in MapOf(OwnHeaders(host, userAgent, postLength) + otherHeaders, map[])
            <==> postLength != 0 || Names(otherHeaders, CONTENT_LENGTH)
  {
    var own := OwnHeaders(host, userAgent, postLength);
    var headers := own + otherHeaders;
    MapOfNames(headers, map[], CONTENT_LENGTH);
    if postLength != 0 {
      assert headers[2].name == CONTENT_LENGTH;
    }
    if Names(otherHeaders, CONTENT_LENGTH) {
      var i :| 0 <= i < |otherHeaders| && otherHeaders[i].name == CONTENT_LENGTH;
      assert headers[|own| + i].name == CONTENT_LENGTH;
    }
    if postLength == 0 && Names(headers, CONTENT_LENGTH) {
      var i :| 0 <= i < |headers| && headers[i].name == CONTENT_LENGTH;
      OtherNames();
      assert otherHeaders[i - 2].name == CONTENT_LENGTH;
    }
  }

  lemma OtherNames()
    ensures "Host" != CONTENT_LENGTH && "User-Agent" != CONTENT_LENGTH && "Host" != "User-Agent"
  {
    assert |"Host"| == 4 && |"User-Agent"| == 10 && |CONTENT_LENGTH| == 14;
  }

  /** The length that the server waits for is that of the client's body. */
  lemma LengthArrives(host: string, userAgent: string, postLength: nat, otherHeaders: seq<Header>)
    requires 0 < postLength < Size(Bits64) && !Names(otherHeaders, CONTENT_LENGTH)
    ensures var headers := MapOf(OwnHeaders(host, userAgent, postLength) + otherHeaders, map[]);
            && CONTENT_LENGTH in headers
            && Read(headers[CONTENT_LENGTH], 10, false, 0, Bits64) == postLength
  {
    var first := [Header("Host", host), Header("User-Agent", userAgent)];
    MapOfLast(first, otherHeaders, map[], Header(CONTENT_LENGTH, Digits(postLength, 10)));
    UintRoundTrip(postLength, 10, 0, "", "", Bits64);
    assert "" + Digits(postLength, 10) + "" == Digits(postLength, 10);
  }

  /** The server has understood the request as the client meant it. */
  ghost predicate Understood(server: MpoHttpd, method_: string, uri: string, headers: seq<Header>)
    reads server
    requires Uri.Parse(uri).Some?
  {
    && server.method_ == method_ && server.uri == uri && server.httpVersion == VERSION
    && server.parts == Uri.Parse(uri).value
    && server.headers == MapOf(headers, map[])
  }

  /** However the bytes of a request arrive, and whatever follows them: the request that the server reads is
      this one, and what follows is still there; and if the server is patient, and nothing but pauses comes
      between the bytes, it does read it, unless all that there is has been read before. */
  method Serve(server: MpoHttpd, patient: bool, ghost method_: string, ghost uri: string, ghost headers: seq<Header>,
               ghost rest: string)
    returns (msg: StreamMsg, accepted: bool)
    requires server.stage == Rdy4Request && server.headers == map[]
    requires Sendable(method_, uri, headers) && server.Ahead() == RequestText(method_, uri, headers) + rest
    modifies server, server.stream
    ensures msg.MsgOk? ==> Understood(server, method_, uri, headers) && server.AwaitsBody(accepted) && server.Ahead() == rest
    ensures old(Calm(server.stream.events)) ==> Calm(server.stream.events)
    ensures patient && old(Calm(server.stream.events)) ==> (msg.MsgOk? <==> old(Incoming(server.stream.events)) != "")
  {
    accepted := false;
    HeadEndOfRequest(method_, uri, headers, rest);
    msg := server.ReadRequest(patient);
    if msg == MsgOk {
      FrameOfRequest(method_, uri, headers, rest, server.request, server.Ahead());
      RequestRoundTrip(method_, uri, headers);
      accepted := server.ParseRequest();
    }
  }

  lemma FrameOfRequest(method_: string, uri: string, headers: seq<Header>, rest: string, request: string, left: string)
    requires Sendable(method_, uri, headers)
    requires Framed(RequestText(method_, uri, headers) + rest, request, left)
    ensures request == HeadText(method_, uri, headers) && left == rest
  {
    var head := HeadText(method_, uri, headers);
    HeadEndOfRequest(method_, uri, headers, rest);
    RequestIs(method_, uri, headers);
    SamePrefix(head + BLANK, rest, request + BLANK, left);
    SamePrefix(head, BLANK, request, BLANK);
  }

  lemma SamePrefix(a: string, b: string, c: string, d: string)
    requires a + b == c + d && |a| == |c|
    ensures a == c && b == d
  {
    assert a == (a + b)[..|a|] && c == (c + d)[..|c|];
    assert b == (a + b)[|a|..] && d == (c + d)[|c|..];
  }

  /** A GET, on a stream that cuts it up as `sizes` says: a patient server always gets it. */
  method GetRoundTrip(host: string, userAgent: string, uri: string, otherHeaders: seq<Header>, sizes: seq<nat>)
    returns (msg: StreamMsg, accepted: bool, line: RequestLine, headers: map<string, string>)
    requires Proper(host, userAgent, uri, otherHeaders)
    ensures msg.MsgOk? && accepted
    ensures line == RequestLine("GET", uri, VERSION, Uri.Parse(uri).value)
    ensures headers == MapOf(OwnHeaders(host, userAgent, 0) + otherHeaders, map[])
    ensures OwnArrive(headers, host, userAgent, otherHeaders)
  {
    var wire := new OutStream(true);
    var client := new MpoHttp(wire, userAgent);
    var _ := client.StartGet(host, uri, otherHeaders);
    var server := NewServer(wire.written, sizes);
    HeadersPrintable(host, userAgent, uri, 0, otherHeaders);
    OwnHeadersArrive(host, userAgent, 0, otherHeaders);
    MethodsAreWords();
    ghost var text := RequestText("GET", uri, OwnHeaders(host, userAgent, 0) + otherHeaders);
    assert "" + text == text + "";
    msg, accepted := Serve(server, true, "GET", uri, OwnHeaders(host, userAgent, 0) + otherHeaders, "");
    line, headers := RequestLine(server.method_, server.uri, server.httpVersion, server.parts), server.headers;
  }

  method NewServer(text: string, sizes: seq<nat>) returns (server: MpoHttpd)
    ensures fresh(server) && fresh(server.stream) && Calm(server.stream.events)
    ensures server.stage == Rdy4Request && server.headers == map[] && server.curBuf == "" && server.Ahead() == text
  {
    var events := Fragment(text, sizes);
    var stream := new InStream(events);
    server := new MpoHttpd(stream);
  }

  lemma MethodsAreWords()
    ensures IsWord("GET") && IsWord("POST") && "GET" != "POST"
  {
    assert "GET"[0] == 'G' && "POST"[0] == 'P';
  }

  /** A POST of this client, as the server takes it: if there is nothing to send, and the caller has not
      supplied a length as a header, then it has no length, and the server disconnects. */
  method ServePost(server: MpoHttpd, patient: bool, ghost host: string, ghost userAgent: string, ghost uri: string,
                   ghost postLength: nat, ghost otherHeaders: seq<Header>, ghost rest: string)
    returns (msg: StreamMsg, accepted: bool)
    requires Proper(host, userAgent, uri, otherHeaders)
    requires server.stage == Rdy4Request && server.headers == map[]
    requires server.Ahead() == RequestText("POST", uri, OwnHeaders(host, userAgent, postLength) + otherHeaders) + rest
    modifies server, server.stream
    ensures old(Calm(server.stream.events)) ==> Calm(server.stream.events)
    ensures patient && old(Calm(server.stream.events)) ==> (msg.MsgOk? <==> old(Incoming(server.stream.events)) != "")
    ensures msg.MsgOk? ==>
              && Understood(server, "POST", uri, OwnHeaders(host, userAgent, postLength) + otherHeaders)
              && server.Ahead() == rest
              && (accepted <==> postLength != 0 || Names(otherHeaders, CONTENT_LENGTH))
              && server.stage == (if accepted then Rdy4RecvPost else Rdy4Disconnect)
    ensures msg.MsgOk? && accepted && !Names(otherHeaders, CONTENT_LENGTH) && postLength < Size(Bits64) ==>
              server.postBytes == postLength && server.postBytesRead == 0
  {
    HeadersPrintable(host, userAgent, uri, postLength, otherHeaders);
    MethodsAreWords();
    msg, accepted := Serve(server, patient, "POST", uri, OwnHeaders(host, userAgent, postLength) + otherHeaders, rest);
    PostHasLengthIff(host, userAgent, postLength, otherHeaders);
    if 0 < postLength < Size(Bits64) && !Names(otherHeaders, CONTENT_LENGTH) {
      LengthArrives(host, userAgent, postLength, otherHeaders);
    }
  }

  /** The client's part of a POST. */
  method SendPost(host: string, userAgent: string, uri: string, otherHeaders: seq<Header>, body: string, steady: bool)
    returns (sent: bool, text: string)
    requires |body| < Pow(10, 19)
    ensures steady ==> sent
    ensures sent ==> text == RequestText("POST", uri, OwnHeaders(host, userAgent, |body|) + otherHeaders) + body
  {
    var wire := new OutStream(steady);
    var client := new MpoHttp(wire, userAgent);
    var _ := client.StartPost(host, uri, |body|, otherHeaders);
    var msg := client.SendBuf(body);
    sent, text := msg == MsgEnd && client.postIndex == client.postLength, wire.written;
    ghost var head := RequestText("POST", uri, OwnHeaders(host, userAgent, |body|) + otherHeaders);
    assert "" + head == head && body[..|body|] == body;
  }

  /** A POST and its body, which may be empty, on streams that take it and cut it up in any way, received
      `readSize` bytes at a time. Over a steady stream it always arrives, and is accepted unless it is empty. */
  method PostRoundTrip(host: string, userAgent: string, uri: string, otherHeaders: seq<Header>, body: string,
                       steady: bool, sizes: seq<nat>, readSize: nat)
    returns (msg: StreamMsg, accepted: bool, line: RequestLine, headers: map<string, string>, received: string)
    requires Proper(host, userAgent, uri, otherHeaders) && !Names(otherHeaders, CONTENT_LENGTH)
    requires |body| < Pow(10, 19) && readSize > 0
    ensures steady ==> msg.MsgOk?
    ensures msg.MsgOk? ==>
              && line == RequestLine("POST", uri, VERSION, Uri.Parse(uri).value)
              && headers == MapOf(OwnHeaders(host, userAgent, |body|) + otherHeaders, map[])
              && OwnArrive(headers, host, userAgent, otherHeaders)
              && received == body
              && (accepted <==> body != "")
  {
    msg, accepted, received := MsgError, false, "";
    line, headers := RequestLine("", "", "", Uri.Parts("", "", "")), map[];
    OwnHeadersArrive(host, userAgent, |body|, otherHeaders);
    var sent, text := SendPost(host, userAgent, uri, otherHeaders, body, steady);
    if sent {
      NineteenDigits();
      var server := NewServer(text, sizes);
      msg, accepted := ServePost(server, true, host, userAgent, uri, |body|, otherHeaders, body);
      line, headers := RequestLine(server.method_, server.uri, server.httpVersion, server.parts), server.headers;
      if accepted {
        received := ReceiveAll(server, readSize, body);
      }
    }
  }

  /** The body that is all that is left to read. */
  method ReceiveAll(server: MpoHttpd, size: nat, ghost body: string) returns (received: string)
    requires server.stage == Rdy4RecvPost && server.postBytesRead == 0 && server.postBytes == |body| > 0 && size > 0
    requires server.Ahead() == body && Calm(server.stream.events)
    modifies server`curBuf, server`postBytesRead, server`stage, server.stream
    ensures received == body
  {
    received := ReceiveBody(server, size);
    assert body + "" == body;
    SamePrefix(received, server.Ahead(), body, "");
  }
}
