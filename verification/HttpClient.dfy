/** The client's requests. */
module HttpClient {
  import opened Collections
  import opened NumStr
  import opened Powers
  import opened Streams
  import opened HttpText

  class MpoHttp {
    const stream: OutStream
    const userAgent: string
    var postLength: nat
    var postIndex: nat

    constructor (stream: OutStream, userAgent: string)
      ensures this.stream == stream && this.userAgent == userAgent && postLength == 0 && postIndex == 0
    {
      this.stream, this.userAgent := stream, userAgent;
      postLength, postIndex := 0, 0;
    }

    /** False if the length does not fit into the buffer in which it is printed. */
    method StartGetOrHead(method_: string, host: string, uri: string, otherHeaders: seq<Header>) returns (ok: bool)
      modifies stream
      ensures ok <==> postLength < Pow(10, 19)
      ensures ok ==> stream.written == old(stream.written)
                       + RequestText(method_, uri, OwnHeaders(host, userAgent, postLength) + otherHeaders)
    {
      ghost var before := stream.written;
      var s := method_;
      s := s + " ";
      s := s + uri;
      s := s + " HTTP/1.1";
      assert s == RequestLineText(method_, uri) by {
        Regroup3(method_ + " " + uri, " ", "HTTP/1.1");
      }
      stream.WriteCRLF(s);
      ok := WriteOwnHeaders(host, before + (s + CRLF));
      if !ok { return; }
      ghost var own := OwnHeaders(host, userAgent, postLength);
      WriteHeaders(otherHeaders, before + (s + CRLF), own);
      stream.WriteCRLF("");
      RequestTextIs(before, s, HeaderLines(own + otherHeaders));
    }

    method WriteOwnHeaders(host: string, ghost before: string) returns (ok: bool)
      requires stream.written == before
      modifies stream
      ensures ok <==> postLength < Pow(10, 19)
      ensures ok ==> stream.written == before + HeaderLines(OwnHeaders(host, userAgent, postLength))
    {
      assert Pow(10, 19) > 0;
      ok := true;
      assert before + "" == before;
      WriteHeader("Host", host, before, []);
      WriteHeader("User-Agent", userAgent, before, [] + [Header("Host", host)]);
      ghost var sent := [] + [Header("Host", host)] + [Header("User-Agent", userAgent)];
      if postLength != 0 {
        var length := UToStr(postLength, 10, 0);
        if length.None? {
          return false;
        }
        WriteHeader(CONTENT_LENGTH, length.value, before, sent);
        assert OwnHeaders(host, userAgent, postLength) == sent + [Header(CONTENT_LENGTH, length.value)];
      } else {
        assert OwnHeaders(host, userAgent, postLength) == sent;
      }
    }

    method WriteHeaders(headers: seq<Header>, ghost before: string, ghost sent: seq<Header>)
      requires stream.written == before + HeaderLines(sent)
      modifies stream
      ensures stream.written == before + HeaderLines(sent + headers)
    {
      assert sent + headers[..0] == sent;
      for i := 0 to |headers|
        invariant stream.written == before + HeaderLines(sent + headers[..i])
      {
        WriteHeader(headers[i].name, headers[i].value, before, sent + headers[..i]);
        assert sent + headers[..i + 1] == sent + headers[..i] + [headers[i]];
      }
      assert headers[..|headers|] == headers;
    }

    method WriteHeader(name: string, value: string, ghost before: string, ghost sent: seq<Header>)
      requires stream.written == before + HeaderLines(sent)
      modifies stream
      ensures stream.written == before + HeaderLines(sent + [Header(name, value)])
    {
      var s := name;
      s := s + ": ";
      s := s + value;
      HeaderLinesNext(sent, Header(name, value));
      Regroup3(before, HeaderLines(sent), s + CRLF);
      stream.WriteCRLF(s);
    }

    method StartGet(host: string, uri: string, otherHeaders: seq<Header>) returns (ok: bool)
      modifies this`postLength, stream
      ensures ok
      ensures stream.written == old(stream.written) + RequestText("GET", uri, OwnHeaders(host, userAgent, 0) + otherHeaders)
    {
      postLength := 0;
      assert Pow(10, 19) > 0;
      ok := StartGetOrHead("GET", host, uri, otherHeaders);
    }

    method StartPost(host: string, uri: string, contentLength: nat, otherHeaders: seq<Header>) returns (ok: bool)
      modifies this, stream
      ensures ok <==> contentLength < Pow(10, 19)
      ensures postLength == contentLength && postIndex == 0
      ensures ok ==> stream.written == old(stream.written)
                       + RequestText("POST", uri, OwnHeaders(host, userAgent, contentLength) + otherHeaders)
    {
      postLength := contentLength;
      postIndex := 0;
      ok := StartGetOrHead("POST", host, uri, otherHeaders);
    }

    /** Sends some of the buffer, but never more than the announced length in all. */
    method Send(buffer: string) returns (msg: StreamMsg, sent: nat)
      requires postIndex <= postLength
      modifies this`postIndex, stream
      ensures sent <= |buffer| && postIndex == old(postIndex) + sent <= postLength
      ensures !msg.MsgOk? ==> sent == 0
      ensures msg.MsgOk? || msg.MsgTimeout? || msg.MsgEnd? ==> stream.written == old(stream.written) + buffer[..sent]
      ensures msg.MsgOk? && buffer != "" ==> sent > 0
      ensures old(postIndex) == postLength ==> msg.MsgEnd?
      ensures stream.steady && old(postIndex) < postLength ==> msg.MsgOk?
    {
      msg, sent := MsgEnd, 0;
      if postIndex < postLength {
        var dataLeft := postLength - postIndex;
        var canSend := |buffer|;
        if canSend > dataLeft {
          canSend := dataLeft;
        }
        var n;
        msg, n := stream.Write(buffer[..canSend]);
        assert buffer[..canSend][..n] == buffer[..n];
        if msg == MsgOk {
          sent := n;
          postIndex := postIndex + n;
        }
      }
    }

    /** Sends until it cannot send any more. With less than the announced length it would go on for ever. */
    method SendBuf(buffer: string) returns (msg: StreamMsg)
      requires postIndex <= postLength <= postIndex + |buffer|
      modifies this`postIndex, stream
      ensures postIndex <= postLength && !msg.MsgOk?
      ensures msg.MsgEnd? && postIndex == postLength ==>
                stream.written == old(stream.written) + buffer[..postLength - old(postIndex)]
      ensures stream.steady ==> msg.MsgEnd? && postIndex == postLength
    {
      var left, start := |buffer|, 0;
      ghost var first := postIndex;
      while true
        invariant start + left == |buffer| && postIndex == first + start <= postLength
        invariant stream.written == old(stream.written) + buffer[..start]
        decreases left
      {
        var sent;
        msg, sent := Send(buffer[start..]);
        assert buffer[..start] + buffer[start..][..sent] == buffer[..start + sent];
        if msg == MsgOk {
          left, start := left - sent, start + sent;
        } else {
          break;
        }
      }
    }
  }

  lemma {:induction false} HeaderLinesNext(headers: seq<Header>, h: Header)
    ensures HeaderLines(headers + [h]) == HeaderLines(headers) + (HeaderLine(h) + CRLF)
  {
    if headers == [] {
      assert [h][1..] == [] && CRLF + "" == CRLF && headers + [h] == [h];
    } else {
      HeaderLinesNext(headers[1..], h);
      assert (headers + [h])[1..] == headers[1..] + [h];
      Regroup4(HeaderLine(headers[0]), CRLF, HeaderLines(headers[1..]), HeaderLine(h) + CRLF);
    }
  }

  lemma RequestTextIs(before: string, line: string, headerLines: string)
    ensures before + (line + CRLF) + headerLines + ("" + CRLF) == before + (line + (CRLF + (headerLines + CRLF)))
  {
    assert "" + CRLF == CRLF;
    Regroup3(before + (line + CRLF), headerLines, CRLF);
    Regroup3(before, line + CRLF, headerLines + CRLF);
    Regroup3(line, CRLF, headerLines + CRLF);
  }
}
