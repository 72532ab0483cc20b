/** The server's side of a request: framing, parsing, and the body. */
module HttpServer {
  import opened Collections
  import opened NumStr
  import opened Wrappers
  import opened Streams
  import opened HttpText
  import Uri

  datatype Stage =
    | Rdy4Request
    | Rdy4Parse
    | Rdy4RecvPost
    | Rdy4SetHeader
    | Rdy4SendHeader
    | Rdy4SendBody
    | Rdy4Disconnect

  /** Takes a line, and all end-of-line characters behind it, off `src`; false if the line is empty. */
  method GetNextLine(src: string) returns (ok: bool, line: string, rest: string)
    ensures line == FirstLine(src) && rest == AfterLine(src)
    ensures NoEol(line) && line <= src && (rest == "" || !IsEol(rest[0])) && (ok <==> line != "")
  {
    line := "";
    var idx := 0;
    while idx < |src| && !IsEol(src[idx])
      invariant 0 <= idx <= |src| && line == src[..idx]
      invariant LineLength(src) == idx + LineLength(src[idx..])
    {
      assert src[idx..][1..] == src[idx + 1..];
      line := line + [src[idx]];
      idx := idx + 1;
    }
    var end := SkipEols(src, idx);
    ok, rest := line != "", src[end..];
  }

  method SkipEols(src: string, start: nat) returns (idx: nat)
    requires start <= |src|
    ensures idx == start + EolLength(src[start..])
    ensures idx <= |src| && (idx < |src| ==> !IsEol(src[idx]))
  {
    idx := start;
    while idx < |src| && IsEol(src[idx])
      invariant start <= idx <= |src|
      invariant start + EolLength(src[start..]) == idx + EolLength(src[idx..])
    {
      assert src[idx..][1..] == src[idx + 1..];
      idx := idx + 1;
    }
  }

  /** Skips white space, or what is not. */
  method Skip(src: string, start: nat, spaces: bool) returns (idx: nat)
    requires start <= |src|
    ensures idx == start + SpanLength(src[start..], spaces)
  {
    idx := start;
    while idx < |src| && IsSpace(src[idx]) == spaces
      invariant start <= idx <= |src|
      invariant start + SpanLength(src[start..], spaces) == idx + SpanLength(src[idx..], spaces)
    {
      assert src[idx..][1..] == src[idx + 1..];
      idx := idx + 1;
    }
  }

  method GetNextWord(src: string) returns (ok: bool, word: string, rest: string)
    ensures ok <==> NextWord(src).Some?
    ensures ok ==> NextWord(src) == Some((word, rest))
  {
    ok, word, rest := false, "", src;
    var start := Skip(src, 0, true);
    assert src[0..] == src;
    if start < |src| {
      var idx := Skip(src, start, false);
      assert src[start..][..idx - start] == src[start..idx] && src[start..][idx - start..] == src[idx..];
      ok, word, rest := true, src[start..idx], src[idx..];
    }
  }

  class MpoHttpd {
    const stream: InStream
    var stage: Stage
    var curBuf: string
    var request: string
    var method_: string
    var uri: string
    var parts: Uri.Parts
    var httpVersion: string
    var headers: map<string, string>
    var postBytes: nat
    var postBytesRead: nat

    constructor (stream: InStream)
      ensures this.stream == stream && stage == Rdy4Request && curBuf == "" && headers == map[]
    {
      this.stream := stream;
      stage, curBuf, request, headers := Rdy4Request, "", "", map[];
      method_, uri, httpVersion, parts := "", "", "", Uri.Parts("", "", "");
      postBytes, postBytesRead := 0, 0;
    }

    /** What has been read but not used, and what is still to be read. */
    ghost function Ahead(): string
      reads this, stream
    {
      curBuf + Incoming(stream.events)
    }

    method ReadIntoBuf() returns (msg: StreamMsg)
      modifies this`curBuf, stream
      ensures Ahead() == old(Ahead()) && old(curBuf) <= curBuf && |curBuf| <= |old(curBuf)| + 320
      ensures !msg.MsgOk? ==> curBuf == old(curBuf) && Incoming(stream.events) == old(Incoming(stream.events))
      ensures msg.MsgOk? || msg.MsgTimeout? ==> Pending(stream.events) < old(Pending(stream.events))
      ensures old(Calm(stream.events)) ==> Calm(stream.events) && (msg.MsgOk? ==> curBuf != "")
      ensures old(Calm(stream.events) && Incoming(stream.events) != "") ==> msg.MsgOk? || msg.MsgTimeout?
      ensures old(Calm(stream.events) && Incoming(stream.events) == "") ==> !msg.MsgOk?
      ensures old(stream.events) == [] ==> msg.MsgEnd?
    {
      var bytes;
      msg, bytes := stream.Read(320);
      Regroup3(curBuf, bytes, Incoming(stream.events));
      if msg == MsgOk {
        curBuf := curBuf + bytes;
      } else {
        assert bytes + Incoming(stream.events) == Incoming(stream.events);
      }
    }

    /** One read, and a look at all that has been read by then. A request that was already there is not looked
        at before another read brings data. */
    method ReadPartialRequest() returns (msg: StreamMsg)
      modifies this`curBuf, this`request, stream
      ensures !msg.MsgOk? ==> Ahead() == old(Ahead())
      ensures msg.MsgOk? ==> Framed(old(Ahead()), request, Ahead())
      ensures old(Calm(stream.events)) ==> Calm(stream.events)
      ensures msg.MsgOk? || msg.MsgTimeout? ==> Pending(stream.events) < old(Pending(stream.events))
      ensures old(Calm(stream.events) && Coming()) ==> msg.MsgOk? || (msg.MsgTimeout? && Coming())
      ensures old(Calm(stream.events) && !Coming()) ==> !msg.MsgOk? && !Coming()
      ensures old(stream.events) == [] ==> msg.MsgEnd?
    {
      msg := ReadIntoBuf();
      if msg == MsgOk {
        var ok := TakeRequest();
        if !ok {
          msg := MsgTimeout;
        }
      }
    }

    /** Takes a request off what has been read, if all of it has been. */
    method TakeRequest() returns (ok: bool)
      modifies this`curBuf, this`request
      ensures ok ==> Framed(old(Ahead()), request, Ahead())
      ensures !ok ==> curBuf == old(curBuf) && (HeadEnd(Ahead()).Some? ==> Incoming(stream.events) != "")
    {
      var pos := HeadEnd(curBuf);
      ok := pos.Some?;
      if ok {
        FrameFound(curBuf, Incoming(stream.events), pos.value);
        request := curBuf[..pos.value];
        curBuf := curBuf[pos.value + 4..];
      } else {
        assert curBuf + "" == curBuf;
      }
    }

    /** There is a request, and some of what is ahead is still to be read: its end, or what comes behind it. */
    ghost predicate Coming()
      reads this, stream
    {
      HeadEnd(Ahead()).Some? && Incoming(stream.events) != ""
    }

    /** Reads up to the first blank line, wherever the reads in between have cut the stream. If it is patient,
        and nothing but pauses comes between the bytes, it finds a request exactly if there is one and another
        read will bring data. Unless it is patient, the clock may stop it before any read. */
    method ReadRequest(patient: bool) returns (msg: StreamMsg)
      modifies this`curBuf, this`request, this`stage, stream
      ensures old(stage) != Rdy4Request ==>
                && msg == (if old(stage) == Rdy4Disconnect then MsgEnd else MsgError)
                && unchanged(this) && unchanged(stream)
      ensures old(stage) == Rdy4Request && msg.MsgOk? ==> stage == Rdy4Parse && Framed(old(Ahead()), request, Ahead())
      ensures old(stage) == Rdy4Request && !msg.MsgOk? ==> stage == Rdy4Request && Ahead() == old(Ahead())
      ensures old(Calm(stream.events)) ==> Calm(stream.events)
      ensures patient && old(stage == Rdy4Request && Calm(stream.events)) ==> (msg.MsgOk? <==> old(Coming()))
      ensures patient && old(stage == Rdy4Request && stream.events == []) ==> msg.MsgEnd?
    {
      msg := MsgError;
      if stage == Rdy4Disconnect {
        return MsgEnd;
      }
      if stage != Rdy4Request {
        return MsgError;
      }
      while true
        invariant Ahead() == old(Ahead()) && stage == Rdy4Request
        invariant old(Calm(stream.events)) ==> Calm(stream.events)
        invariant old(Calm(stream.events)) ==> (Coming() <==> old(Coming()))
        invariant old(stream.events) == [] ==> stream.events == []
        decreases Pending(stream.events)
      {
        if !patient {
          if * {
            msg := MsgTimeout;
            break;
          }
        }
        msg := ReadPartialRequest();
        if msg == MsgOk {
          stage := Rdy4Parse;
          break;
        } else if msg != MsgTimeout {
          break;
        }
      }
    }

    /** The request line. */
    method ReadLine(line: string) returns (ok: bool)
      modifies this`method_, this`uri, this`httpVersion, this`parts
      ensures ok <==> ParseRequestLine(line).Some?
      ensures ok ==> ParseRequestLine(line) == Some(RequestLine(method_, uri, httpVersion, parts))
    {
      ok := ReadWords(line);
      if !ok { return; }
      var parsed := Uri.ParseURI(uri);
      if parsed.None? {
        return false;
      }
      parts := parsed.value;
    }

    method ReadWords(line: string) returns (ok: bool)
      modifies this`method_, this`uri, this`httpVersion
      ensures ok <==> Words(line).Some?
      ensures ok ==> Words(line) == Some((method_, uri, httpVersion))
    {
      var word, rest;
      ok, word, rest := GetNextWord(line);
      if !ok { return; }
      method_ := word;
      ok, word, rest := GetNextWord(rest);
      if !ok { return; }
      uri := word;
      ok, word, rest := GetNextWord(rest);
      if !ok { return; }
      httpVersion := word;
    }

    /** One header line. */
    method ReadHeader(line: string) returns (ok: bool)
      modifies this`headers
      ensures ok <==> HeaderOf(line).Some?
      ensures ok ==> headers == old(headers)[HeaderOf(line).value.name := HeaderOf(line).value.value]
    {
      var pos := Uri.Find(line, ':');
      if pos.None? {
        return false;
      }
      var name := line[..pos.value];
      var value := line[pos.value + 1..];
      if value != "" && value[0] == ' ' {
        value := value[1..];
      }
      headers := headers[name := value];
      ok := true;
    }

    /** All lines of the request. */
    method ReadLines(ghost p: Option<Request>) returns (ok: bool)
      requires ParseText(request, headers) == p
      modifies this`request, this`method_, this`uri, this`httpVersion, this`parts, this`headers
      ensures ok <==> p.Some?
      ensures ok ==> p == Some(Request(RequestLine(method_, uri, httpVersion, parts), headers))
    {
      ghost var first, parsed := FirstLine(request), ParseRequestLine(FirstLine(request));
      ghost var all := ParseHeaders(AfterLine(request), headers);
      ParseTextIs(request, headers, parsed, all);
      ok := ReadEach(first, parsed, all);
    }

    method ReadEach(ghost first: string, ghost parsed: Option<RequestLine>, ghost all: Option<map<string, string>>)
      returns (ok: bool)
      requires first == FirstLine(request) && parsed == ParseRequestLine(first)
      requires all == ParseHeaders(AfterLine(request), headers)
      modifies this`request, this`method_, this`uri, this`httpVersion, this`parts, this`headers
      ensures ok <==> first != "" && parsed.Some? && all.Some?
      ensures ok ==> parsed == Some(RequestLine(method_, uri, httpVersion, parts)) && all == Some(headers)
    {
      var line;
      ok, line, request := GetNextLine(request);
      if !ok { return; }
      ok := ReadLine(line);
      if !ok { return; }
      ok := ReadHeaders(all);
    }

    /** All header lines. */
    method ReadHeaders(ghost all: Option<map<string, string>>) returns (ok: bool)
      requires ParseHeaders(request, headers) == all
      modifies this`request, this`headers
      ensures ok <==> all.Some?
      ensures ok ==> all == Some(headers)
    {
      while true
        invariant ParseHeaders(request, headers) == all
        decreases |request|
      {
        var more, next := false, "";
        more, next, request := GetNextLine(request);
        if !more {
          break;
        }
        ok := ReadHeader(next);
        if !ok { return; }
      }
      ok := true;
    }

    /** The last part of ParseRequest: whether there is a body to come, and how long it is. */
    method AwaitBody() returns (ok: bool)
      modifies this`stage, this`postBytes, this`postBytesRead
      ensures AwaitsBody(ok)
    {
      stage := Rdy4SetHeader;
      ok := true;
      if method_ == "POST" {
        if CONTENT_LENGTH in headers {
          postBytes := ToUint(headers[CONTENT_LENGTH], 10, Bits64);
          postBytesRead := 0;
          stage := Rdy4RecvPost;
        } else {
          ok := false;
          stage := Rdy4Disconnect;
        }
      }
    }

    /** A POST has to say its length. */
    ghost predicate AwaitsBody(ok: bool)
      reads this
    {
      if method_ != "POST" then ok && stage == Rdy4SetHeader
      else if CONTENT_LENGTH !in headers then !ok && stage == Rdy4Disconnect
      else ok && stage == Rdy4RecvPost && postBytesRead == 0
           && postBytes == Read(headers[CONTENT_LENGTH], 10, false, 0, Bits64)
    }

    method ParseRequest() returns (ok: bool)
      modifies this
      ensures old(stage) != Rdy4Parse ==> !ok && unchanged(this)
      ensures curBuf == old(curBuf) && (old(stage) == Rdy4Parse ==> Parsed(ParseText(old(request), old(headers)), ok))
    {
      ok := false;
      if stage == Rdy4Parse {
        ok := ParseLines(ParseText(request, headers));
      }
    }

    /** ParseRequest, once there is a request. */
    method ParseLines(ghost p: Option<Request>) returns (ok: bool)
      requires stage == Rdy4Parse && ParseText(request, headers) == p
      modifies this`stage, this`request, this`method_, this`uri, this`httpVersion, this`parts, this`headers
      modifies this`postBytes, this`postBytesRead
      ensures Parsed(p, ok)
    {
      ok := ReadLines(p);
      if ok {
        ok := AwaitBody();
      }
    }

    /** What the server knows of a request. One that it does not understand leaves it where it was. */
    ghost predicate Parsed(p: Option<Request>, ok: bool)
      reads this
    {
      if p.None? then !ok && stage == Rdy4Parse
      else p.value == Request(RequestLine(method_, uri, httpVersion, parts), headers) && AwaitsBody(ok)
    }

    /** Some of the body, in order, and never any of what follows it. */
    method Recv(bytesCanRead: nat) returns (msg: StreamMsg, bytes: string)
      modifies this`curBuf, this`postBytesRead, this`stage, stream
      ensures |bytes| <= bytesCanRead && old(Ahead()) == bytes + Ahead()
      ensures old(stage) != Rdy4RecvPost || old(postBytesRead) >= postBytes ==>
                msg.MsgEnd? && bytes == "" && unchanged(this) && unchanged(stream)
      ensures old(stage) == Rdy4RecvPost && old(postBytesRead) < postBytes ==>
                && postBytesRead == old(postBytesRead) + |bytes| <= postBytes
                && (stage == Rdy4SetHeader <==> postBytesRead == postBytes)
                && (stage != Rdy4RecvPost && stage != Rdy4SetHeader ==> stage == Rdy4Disconnect && !msg.MsgTimeout?)
                && (stage == Rdy4RecvPost && bytesCanRead > 0 ==>
                      |bytes| > 0 || (msg.MsgTimeout? && Pending(stream.events) < old(Pending(stream.events))))
      ensures old(stage) == Rdy4RecvPost && old(postBytesRead) < postBytes ==>
                && (bytes != "" || old(curBuf) != "" ==> msg.MsgOk?)
                && (|bytes| < bytesCanRead && postBytesRead < postBytes ==> curBuf == "")
      ensures old(Calm(stream.events)) ==>
                && Calm(stream.events)
                && (old(Ahead()) != "" && old(stage) == Rdy4RecvPost ==> stage != Rdy4Disconnect)
    {
      msg, bytes := MsgError, "";
      if stage != Rdy4RecvPost {
        return MsgEnd, "";
      }
      if postBytesRead >= postBytes {
        return MsgEnd, "";
      }
      var bytesLeft := postBytes - postBytesRead;
      var toRead := bytesCanRead;
      if bytesLeft < toRead {
        toRead := bytesLeft;
      }
      if curBuf == "" {
        msg := ReadIntoBuf();
      }
      if curBuf != "" {
        if |curBuf| < toRead {
          toRead := |curBuf|;
        }
        bytes := curBuf[..toRead];
        msg := MsgOk;
        TakenOff(curBuf, toRead, Incoming(stream.events));
        postBytesRead := postBytesRead + toRead;
        curBuf := curBuf[toRead..];
        if postBytesRead == postBytes {
          stage := Rdy4SetHeader;
        }
      } else if msg != MsgTimeout {
        stage := Rdy4Disconnect;
      }
    }
  }

  /** `request` is what `all` has before its first blank line, and `rest` is what it has behind. */
  ghost predicate Framed(all: string, request: string, rest: string) {
    HeadEnd(all) == Some(|request|) && all == request + BLANK + rest
  }

  lemma FrameFound(buf: string, incoming: string, pos: nat)
    requires HeadEnd(buf) == Some(pos)
    ensures Framed(buf + incoming, buf[..pos], buf[pos + 4..] + incoming)
  {
    HeadEndStays(buf, incoming);
    CutOut(buf, pos);
    Regroup3(buf[..pos] + BLANK, buf[pos + 4..], incoming);
  }

  lemma CutOut(buf: string, pos: nat)
    requires pos + 4 <= |buf| && buf[pos..pos + 4] == BLANK
    ensures buf == buf[..pos] + BLANK + buf[pos + 4..]
  {
    assert buf == buf[..pos] + buf[pos..pos + 4] + buf[pos + 4..];
  }

  lemma TakenOff(buf: string, n: nat, incoming: string)
    requires n <= |buf|
    ensures buf + incoming == buf[..n] + (buf[n..] + incoming)
  {
    Regroup3(buf[..n], buf[n..], incoming);
    assert buf == buf[..n] + buf[n..];
  }
}
