/** Requests as text: what the client prints, and what the server finds in it. */
module HttpText {
  import opened Collections
  import opened NumStr
  import opened Wrappers
  import Uri

  const CRLF: string := "\r\n"
  const BLANK: string := "\r\n\r\n"
  const VERSION: string := "HTTP/1.1"
  const CONTENT_LENGTH: string := "Content-Length"

  predicate IsEol(ch: char) {
    ch == '\n' || ch == '\r'
  }

  predicate NoEol(s: string) {
    '\n' !in s && '\r' !in s
  }

  predicate IsSpace(ch: char) {
    ch == ' ' || ch == '\t'
  }

  predicate IsWord(s: string) {
    s != "" && ' ' !in s && '\t' !in s && NoEol(s)
  }

  /** The place of the first blank line's CRLFCRLF. */
  function HeadEnd(s: string): (at: Option<nat>)
    ensures at.Some? ==> at.value + 4 <= |s| && s[at.value..at.value + 4] == BLANK
  {
    if |s| < 4 then None
    else if s[..4] == BLANK then Some(0)
    else
      var at := HeadEnd(s[1..]);
      if at.None? then None else Some(at.value + 1)
  }

  /** Before that there is none, and without one there is none anywhere. */
  lemma {:induction false} HeadEndIsFirst(s: string, i: nat)
    requires i + 4 <= |s| && s[i..i + 4] == BLANK
    ensures HeadEnd(s).Some? && HeadEnd(s).value <= i
  {
    if i > 0 && s[..4] != BLANK {
      assert s[1..][i - 1..i + 3] == s[i..i + 4];
      HeadEndIsFirst(s[1..], i - 1);
    } else if i == 0 {
      assert s[..4] == s[0..4];
    }
  }

  /** More text does not change where the head ends. */
  lemma {:induction false} HeadEndStays(s: string, more: string)
    requires HeadEnd(s).Some?
    ensures HeadEnd(s + more) == HeadEnd(s)
  {
    assert (s + more)[..4] == s[..4];
    if s[..4] != BLANK {
      assert (s + more)[1..] == s[1..] + more;
      HeadEndStays(s[1..], more);
    }
  }

  /** How many characters of `s` there are before its first end-of-line character. */
  function LineLength(s: string): (n: nat)
    ensures n <= |s| && NoEol(s[..n]) && (n < |s| ==> IsEol(s[n]))
  {
    if s == "" || IsEol(s[0]) then 0
    else
      assert s[..LineLength(s[1..]) + 1] == [s[0]] + s[1..][..LineLength(s[1..])];
      1 + LineLength(s[1..])
  }

  /** How many end-of-line characters `s` starts with. */
  function EolLength(s: string): (n: nat)
    ensures n <= |s| && (n < |s| ==> !IsEol(s[n])) && forall i | 0 <= i < n :: IsEol(s[i])
  {
    if s == "" || !IsEol(s[0]) then 0 else 1 + EolLength(s[1..])
  }

  function FirstLine(s: string): string {
    s[..LineLength(s)]
  }

  /** What comes behind the first line and all end-of-line characters after it. */
  function AfterLine(s: string): (r: string)
    ensures |r| + LineLength(s) <= |s| && (FirstLine(s) == "" || |r| < |s|)
  {
    s[LineLength(s) + EolLength(s[LineLength(s)..])..]
  }

  /** How many characters `s` starts with that are white space, or that are not. */
  function SpanLength(s: string, spaces: bool): (n: nat)
    ensures n <= |s|
  {
    if s == "" || IsSpace(s[0]) != spaces then 0 else 1 + SpanLength(s[1..], spaces)
  }

  /** The first word and what is behind it; nothing if there is none. */
  function NextWord(s: string): Option<(string, string)> {
    var start := s[SpanLength(s, true)..];
    if start == "" then None else Some((start[..SpanLength(start, false)], start[SpanLength(start, false)..]))
  }

  datatype Header = Header(name: string, value: string)

  /** A header line, split at its first colon; nothing if it has none. */
  function HeaderOf(line: string): Option<Header> {
    var at := Uri.Find(line, ':');
    if at.None? then None
    else
      var value := line[at.value + 1..];
      Some(Header(line[..at.value], if value != "" && value[0] == ' ' then value[1..] else value))
  }

  /** The headers in the lines of `s` as far as the first empty one, added to `headers`, the later over the
      earlier. */
  function ParseHeaders(s: string, headers: map<string, string>): Option<map<string, string>>
    decreases |s|
  {
    if FirstLine(s) == "" then Some(headers)
    else
      var h := HeaderOf(FirstLine(s));
      if h.None? then None else ParseHeaders(AfterLine(s), headers[h.value.name := h.value.value])
  }

  datatype RequestLine = RequestLine(method_: string, uri: string, version: string, parts: Uri.Parts)

  /** The first three words. */
  function Words(line: string): Option<(string, string, string)> {
    var w1 := NextWord(line);
    if w1.None? then None
    else
      var w2 := NextWord(w1.value.1);
      if w2.None? then None
      else
        var w3 := NextWord(w2.value.1);
        if w3.None? then None else Some((w1.value.0, w2.value.0, w3.value.0))
  }

  function ParseRequestLine(line: string): Option<RequestLine> {
    var words := Words(line);
    if words.None? then None
    else
      var parts := Uri.Parse(words.value.1);
      if parts.None? then None else Some(RequestLine(words.value.0, words.value.1, words.value.2, parts.value))
  }

  datatype Request = Request(line: RequestLine, headers: map<string, string>)

  /** A request without its final blank line, as a server takes it that has `headers` already. */
  function ParseText(s: string, headers: map<string, string>): Option<Request> {
    if FirstLine(s) == "" then None
    else
      var line, all := ParseRequestLine(FirstLine(s)), ParseHeaders(AfterLine(s), headers);
      if line.None? || all.None? then None else Some(Request(line.value, all.value))
  }

  lemma ParseTextIs(s: string, headers: map<string, string>, line: Option<RequestLine>, all: Option<map<string, string>>)
    requires line == ParseRequestLine(FirstLine(s)) && all == ParseHeaders(AfterLine(s), headers)
    ensures ParseText(s, headers)
            == if FirstLine(s) == "" || line.None? || all.None? then None else Some(Request(line.value, all.value))
  {}

  /** Headers as a map, the later over the earlier. */
  function MapOf(headers: seq<Header>, m: map<string, string>): map<string, string>
    decreases |headers|
  {
    if headers == [] then m else MapOf(headers[1..], m[headers[0].name := headers[0].value])
  }

  /** The headers that the client sends of its own, before those of its caller. */
  function OwnHeaders(host: string, userAgent: string, postLength: nat): seq<Header> {
    [Header("Host", host), Header("User-Agent", userAgent)]
    + if postLength == 0 then [] else [Header(CONTENT_LENGTH, Digits(postLength, 10))]
  }

  function HeaderLine(h: Header): string {
    h.name + ": " + h.value
  }

  /** Header lines, each with its CRLF. */
  function HeaderLines(headers: seq<Header>): string {
    if headers == [] then "" else HeaderLine(headers[0]) + (CRLF + HeaderLines(headers[1..]))
  }

  /** The request line without its CRLF. */
  function RequestLineText(method_: string, uri: string): string {
    method_ + " " + uri + (" " + VERSION)
  }

  /** All that StartGetOrHead sends. */
  function RequestText(method_: string, uri: string, headers: seq<Header>): string {
    RequestLineText(method_, uri) + (CRLF + (HeaderLines(headers) + CRLF))
  }

  predicate Printable(h: Header) {
    NoEol(h.name) && NoEol(h.value) && ':' !in h.name
  }

  /** A header line is refused exactly if it has no colon; otherwise it is split at the first one, and one space
      behind that is left out. */
  lemma HeaderOfIs(name: string, value: string)
    requires ':' !in name
    ensures HeaderOf(name) == None
    ensures HeaderOf(name + (":" + (" " + value))) == Some(Header(name, value))
    ensures value == "" || value[0] != ' ' ==> HeaderOf(name + (":" + value)) == Some(Header(name, value))
  {
    Uri.NotFound(name, ':');
    SplitAtColon(name, " " + value);
    SplitAtColon(name, value);
    assert (" " + value)[1..] == value;
  }

  lemma SplitAtColon(name: string, value: string)
    requires ':' !in name
    ensures var line := name + (":" + value);
            Uri.Find(line, ':') == Some(|name|) && line[..|name|] == name && line[|name| + 1..] == value
  {
    Uri.FoundBehind(name, ':', value);
  }

  lemma HeaderLineNoEol(h: Header)
    requires Printable(h)
    ensures NoEol(HeaderLine(h)) && HeaderLine(h) != "" && !IsEol(HeaderLine(h)[0])
  {}

  lemma HeaderLineIs(h: Header)
    requires Printable(h)
    ensures NoEol(HeaderLine(h)) && HeaderLine(h) != "" && HeaderOf(HeaderLine(h)) == Some(h)
  {
    var line := HeaderLine(h);
    Regroup3(h.name, ": ", h.value);
    Uri.FindBehind(h.name, ": " + h.value, ':');
    assert line[|h.name|..] == ": " + h.value && line[..|h.name|] == h.name;
    assert line[|h.name| + 1..] == " " + h.value && (" " + h.value)[1..] == h.value;
  }

  /** A line ends at the first carriage return or line feed, and all of these that follow belong to its end. */
  lemma LineIs(line: string, ends: string, more: string)
    requires NoEol(line) && AllEnds(ends) && (ends == "" ==> more == "")
    requires more == "" || (more[0] != '\n' && more[0] != '\r')
    ensures FirstLine(line + (ends + more)) == line && AfterLine(line + (ends + more)) == more
  {
    var s := line + (ends + more);
    LineLengthIs(line, ends + more);
    assert s[|line|..] == ends + more && s[..|line|] == line;
    EolLengthIs(ends, more);
    assert s[|line| + |ends|..] == more;
  }

  predicate AllEnds(s: string) {
    forall i | 0 <= i < |s| :: s[i] == '\n' || s[i] == '\r'
  }

  lemma {:induction false} EolLengthIs(ends: string, more: string)
    requires AllEnds(ends) && (more == "" || (more[0] != '\n' && more[0] != '\r'))
    ensures EolLength(ends + more) == |ends|
  {
    if ends == "" {
      assert ends + more == more;
    } else {
      assert (ends + more)[1..] == ends[1..] + more;
      EolLengthIs(ends[1..], more);
    }
  }

  lemma LineThenMore(line: string, more: string)
    requires NoEol(line) && (more == "" || !IsEol(more[0]))
    ensures FirstLine(line + (CRLF + more)) == line && AfterLine(line + (CRLF + more)) == more
  {
    LineIs(line, CRLF, more);
  }

  lemma {:induction false} LineLengthIs(line: string, rest: string)
    requires NoEol(line) && (rest == "" || IsEol(rest[0]))
    ensures LineLength(line + rest) == |line|
  {
    if line == "" {
      assert line + rest == rest;
    } else {
      assert (line + rest)[1..] == line[1..] + rest;
      LineLengthIs(line[1..], rest);
    }
  }

  lemma OnlyLine(line: string)
    requires NoEol(line)
    ensures FirstLine(line) == line && AfterLine(line) == ""
  {
    LineLengthIs(line, "");
    assert line + "" == line;
  }

  /** The header lines without their last CRLF. */
  function Inner(headers: seq<Header>): string
    requires headers != []
  {
    if |headers| == 1 then HeaderLine(headers[0]) else HeaderLine(headers[0]) + (CRLF + Inner(headers[1..]))
  }

  lemma {:induction false} InnerIs(headers: seq<Header>)
    requires headers != []
    ensures HeaderLines(headers) == Inner(headers) + CRLF
  {
    if |headers| == 1 {
      assert HeaderLines(headers[1..]) == "";
      assert CRLF + "" == CRLF;
    } else {
      InnerIs(headers[1..]);
      Regroup4(HeaderLine(headers[0]), CRLF, Inner(headers[1..]), CRLF);
    }
  }

  lemma InnerStart(headers: seq<Header>)
    requires headers != [] && Printable(headers[0])
    ensures Inner(headers) != "" && !IsEol(Inner(headers)[0])
  {
    HeaderLineNoEol(headers[0]);
  }

  /** What the client printed as headers, the server takes for just these. */
  lemma {:induction false} HeadersRoundTrip(headers: seq<Header>, m: map<string, string>)
    requires headers != [] && forall i | 0 <= i < |headers| :: Printable(headers[i])
    ensures ParseHeaders(Inner(headers), m) == Some(MapOf(headers, m))
    decreases |headers|
  {
    var h := headers[0];
    HeaderLineIs(h);
    if |headers| == 1 {
      OnlyLine(HeaderLine(h));
      assert headers[1..] == [];
    } else {
      InnerStart(headers[1..]);
      LineThenMore(HeaderLine(h), Inner(headers[1..]));
      HeadersRoundTrip(headers[1..], m[h.name := h.value]);
    }
  }

  lemma {:induction false} SpanIs(word: string, rest: string, spaces: bool)
    requires forall i | 0 <= i < |word| :: IsSpace(word[i]) == spaces
    requires rest == "" || IsSpace(rest[0]) != spaces
    ensures SpanLength(word + rest, spaces) == |word|
  {
    if word == "" {
      assert word + rest == rest;
    } else {
      assert (word + rest)[1..] == word[1..] + rest;
      SpanIs(word[1..], rest, spaces);
    }
  }

  predicate AllSpaces(s: string) {
    forall i | 0 <= i < |s| :: s[i] == ' ' || s[i] == '\t'
  }

  /** A word is what is between any blanks and tabs, and there is none exactly if there is nothing else. */
  lemma NextWordIs(spaces: string, word: string, rest: string)
    requires AllSpaces(spaces) && word != "" && ' ' !in word && '\t' !in word
    requires rest == "" || rest[0] == ' ' || rest[0] == '\t'
    ensures NextWord(spaces + (word + rest)) == Some((word, rest))
    ensures NextWord(spaces) == None
  {
    var s := spaces + (word + rest);
    SpanIs(spaces, word + rest, true);
    assert s[|spaces|..] == word + rest;
    SpanIs(word, rest, false);
    assert (word + rest)[..|word|] == word && (word + rest)[|word|..] == rest;
    SpanIs(spaces, "", true);
    assert spaces + "" == spaces && spaces[|spaces|..] == "";
  }

  /** A request line is refused if it has fewer than three words; if it has, whatever follows them is ignored. */
  lemma WordsRefused(line: string, second: string, third: string, a: string, b: string)
    ensures NextWord(line) == None ==> Words(line) == None
    ensures NextWord(line) == Some((a, second)) && NextWord(second) == None ==> Words(line) == None
    ensures NextWord(line) == Some((a, second)) && NextWord(second) == Some((b, third)) && NextWord(third) == None ==>
              Words(line) == None
  {}

  lemma WordsAre(line: string, second: string, third: string, rest: string, a: string, b: string, c: string)
    requires NextWord(line) == Some((a, second)) && NextWord(second) == Some((b, third)) && NextWord(third) == Some((c, rest))
    ensures Words(line) == Some((a, b, c))
  {}

  lemma RequestLineRoundTrip(method_: string, uri: string)
    requires IsWord(method_) && IsWord(uri) && Uri.Parse(uri).Some?
    ensures NoEol(RequestLineText(method_, uri)) && RequestLineText(method_, uri) != ""
    ensures ParseRequestLine(RequestLineText(method_, uri))
            == Some(RequestLine(method_, uri, VERSION, Uri.Parse(uri).value))
  {
    VersionIsWord();
    ThreeWords(method_, uri, VERSION);
    RequestLineNoEol(method_, uri);
  }

  lemma RequestLineNoEol(method_: string, uri: string)
    requires NoEol(method_) && NoEol(uri)
    ensures NoEol(RequestLineText(method_, uri))
  {
    VersionIsWord();
    NoEolAppend(method_ + " " + uri, " " + VERSION);
    NoEolAppend(method_ + " ", uri);
    NoEolAppend(method_, " ");
    NoEolAppend(" ", VERSION);
  }

  lemma ThreeWords(a: string, b: string, c: string)
    requires IsWord(a) && IsWord(b) && IsWord(c)
    ensures Words(a + " " + b + (" " + c)) == Some((a, b, c))
  {
    var third := " " + c;
    var second := " " + (b + third);
    Regroup3(a + " ", b, third);
    Regroup3(a, " ", b + third);
    NextWordIs("", a, second);
    assert "" + (a + second) == a + second;
    NextWordIs(" ", b, third);
    NextWordIs(" ", c, "");
    assert c + "" == c;
    WordsAre(a + second, second, third, "", a, b, c);
  }

  lemma VersionIsWord()
    ensures IsWord(VERSION)
  {}

  lemma NoEolAppend(s: string, t: string)
    ensures NoEol(s + t) <==> NoEol(s) && NoEol(t)
  {}

  /** The text before the blank line. */
  function HeadText(method_: string, uri: string, headers: seq<Header>): string
    requires headers != []
  {
    RequestLineText(method_, uri) + (CRLF + Inner(headers))
  }

  lemma RequestIs(method_: string, uri: string, headers: seq<Header>)
    requires headers != []
    ensures RequestText(method_, uri, headers) == HeadText(method_, uri, headers) + BLANK
  {
    InnerIs(headers);
    var line := RequestLineText(method_, uri);
    assert CRLF + CRLF == BLANK;
    Regroup3(Inner(headers), CRLF, CRLF);
    Regroup4(line, CRLF, Inner(headers), BLANK);
  }

  predicate Sendable(method_: string, uri: string, headers: seq<Header>) {
    && IsWord(method_) && IsWord(uri) && Uri.Parse(uri).Some?
    && headers != [] && forall i | 0 <= i < |headers| :: Printable(headers[i])
  }

  /** The lines of a request, as far as the first empty one. */
  function Lines(s: string): (lines: seq<string>)
    ensures forall i | 0 <= i < |lines| :: lines[i] != "" && NoEol(lines[i])
    decreases |s|
  {
    if FirstLine(s) == "" then [] else [FirstLine(s)] + Lines(AfterLine(s))
  }

  predicate AllHaveColons(lines: seq<string>) {
    forall i | 0 <= i < |lines| :: ':' in lines[i]
  }

  lemma HeaderOfIff(line: string)
    ensures HeaderOf(line).Some? <==> ':' in line
  {
    if ':' !in line {
      Uri.NotFound(line, ':');
    } else {
      Uri.FindFirst(line, ':');
    }
  }

  function HeadersOf(lines: seq<string>): seq<Header>
    requires AllHaveColons(lines)
  {
    if lines == [] then []
    else
      HeaderOfIff(lines[0]);
      [HeaderOf(lines[0]).value] + HeadersOf(lines[1..])
  }

  lemma {:induction false} ParseHeadersIff(s: string, headers: map<string, string>)
    ensures ParseHeaders(s, headers).Some? <==> AllHaveColons(Lines(s))
    ensures AllHaveColons(Lines(s)) ==> ParseHeaders(s, headers) == Some(MapOf(HeadersOf(Lines(s)), headers))
    decreases |s|
  {
    var line := FirstLine(s);
    if line != "" {
      var rest := Lines(AfterLine(s));
      HeaderOfIff(line);
      assert Lines(s)[0] == line && Lines(s)[1..] == rest;
      if ':' in line {
        var h := HeaderOf(line).value;
        ParseHeadersIff(AfterLine(s), headers[h.name := h.value]);
      }
    }
  }

  /** Whatever text has been read, it is a request exactly if there is a first line, with three words of which the
      second is a URI, and all lines behind it have a colon; and these are its headers, the later over the earlier. */
  lemma ParseTextIff(s: string, headers: map<string, string>)
    ensures var lines, p := Lines(s), ParseText(s, headers);
            && (p.Some? <==> lines != [] && ParseRequestLine(lines[0]).Some? && AllHaveColons(lines[1..]))
            && (p.Some? ==> p.value == Request(ParseRequestLine(lines[0]).value, MapOf(HeadersOf(lines[1..]), headers)))
  {
    if FirstLine(s) != "" {
      assert Lines(s)[0] == FirstLine(s) && Lines(s)[1..] == Lines(AfterLine(s));
      ParseHeadersIff(AfterLine(s), headers);
    }
  }

  lemma HeadersInstance(m: string, n: string, o: string)
    ensures HeaderLines([Header("Host", m), Header("User-Agent", n), Header("Content-Length", o)])
            == ("Host: " + m + "\r\n") + (("User-Agent: " + n + "\r\n") + ("Content-Length: " + o + "\r\n"))
  {
    var a, b, c := Header("Host", m), Header("User-Agent", n), Header("Content-Length", o);
    assert [a, b, c][1..] == [b, c] && [b, c][1..] == [c] && [c][1..] == [];
    NextHeader(a, [b, c], "Host: ");
    NextHeader(b, [c], "User-Agent: ");
    NextHeader(c, [], "Content-Length: ");
    assert ("Content-Length: " + o + CRLF) + "" == "Content-Length: " + o + CRLF;
  }

  lemma NextHeader(h: Header, headers: seq<Header>, start: string)
    requires h.name + ": " == start
    ensures HeaderLines([h] + headers) == (start + h.value + CRLF) + HeaderLines(headers)
  {
    assert ([h] + headers)[1..] == headers;
    Regroup3(HeaderLine(h), CRLF, HeaderLines(headers));
  }

  /** A POST as the standard prints it, section 3 of RFC 7230: request line, headers, and an empty line. */
  lemma PostInstance(uri: string, host: string, userAgent: string)
    ensures RequestText("POST", uri, OwnHeaders(host, userAgent, 5))
            == ("POST " + uri + " HTTP/1.1\r\n")
               + (("Host: " + host + "\r\n") + (("User-Agent: " + userAgent + "\r\n") + "Content-Length: 5\r\n")) + "\r\n"
  {
    OneDigit(5, 10);
    HeadersInstance(host, userAgent, "5");
    assert OwnHeaders(host, userAgent, 5) == [Header("Host", host), Header("User-Agent", userAgent), Header("Content-Length", "5")];
    var line, headers := RequestLineText("POST", uri), HeaderLines(OwnHeaders(host, userAgent, 5));
    PostLine(uri);
    assert "Content-Length: " + "5" + "\r\n" == "Content-Length: 5\r\n";
    Regroup4(line, CRLF, headers, CRLF);
  }

  lemma PostLine(uri: string)
    ensures RequestLineText("POST", uri) + CRLF == "POST " + uri + " HTTP/1.1\r\n"
  {
    assert "POST" + " " == "POST " && " " + VERSION + CRLF == " HTTP/1.1\r\n";
    Regroup3("POST " + uri, " " + VERSION, CRLF);
  }

  /** The server's parser undoes the client's printer. */
  lemma RequestRoundTrip(method_: string, uri: string, headers: seq<Header>)
    requires Sendable(method_, uri, headers)
    ensures ParseText(HeadText(method_, uri, headers), map[])
            == Some(Request(RequestLine(method_, uri, VERSION, Uri.Parse(uri).value), MapOf(headers, map[])))
  {
    RequestLineRoundTrip(method_, uri);
    InnerStart(headers);
    LineThenMore(RequestLineText(method_, uri), Inner(headers));
    HeadersRoundTrip(headers, map[]);
  }

  function Further(at: Option<nat>, n: nat): Option<nat> {
    if at.None? then None else Some(at.value + n)
  }

  /** A blank line does not start where there is no CR, here or two characters on. */
  lemma HeadEndNotHere(ch: char, t: string)
    requires ch != '\r' || (|t| >= 2 && t[1] != '\r')
    ensures HeadEnd([ch] + t) == Further(HeadEnd(t), 1)
  {
    var s := [ch] + t;
    assert s[1..] == t;
    if |s| >= 4 {
      assert s[..4][0] == ch && s[..4][2] == t[1];
    }
  }

  lemma {:induction false} HeadEndBehindLine(line: string, more: string)
    requires NoEol(line) && more != "" && !IsEol(more[0])
    ensures HeadEnd(line + (CRLF + more)) == Further(HeadEnd(more), |line| + 2)
  {
    if line == "" {
      assert line + (CRLF + more) == "\r" + ("\n" + more);
      HeadEndNotHere('\r', "\n" + more);
      HeadEndNotHere('\n', more);
    } else {
      assert line + (CRLF + more) == [line[0]] + (line[1..] + (CRLF + more));
      HeadEndBehindLine(line[1..], more);
      HeadEndNotHere(line[0], line[1..] + (CRLF + more));
    }
  }

  lemma HeadEndJoined(line: string, inner: string, rest: string)
    requires NoEol(line) && inner != "" && !IsEol(inner[0])
    ensures HeadEnd(line + (CRLF + inner) + rest) == Further(HeadEnd(inner + rest), |line| + 2)
  {
    Regroup3(line, CRLF + inner, rest);
    Regroup3(CRLF, inner, rest);
    HeadEndBehindLine(line, inner + rest);
  }

  lemma {:induction false} HeadEndOfLastLine(line: string, rest: string)
    requires NoEol(line)
    ensures HeadEnd(line + (BLANK + rest)) == Some(|line|)
  {
    var s := line + (BLANK + rest);
    if line == "" {
      assert s[..4] == BLANK;
    } else {
      assert s[1..] == line[1..] + (BLANK + rest);
      HeadEndOfLastLine(line[1..], rest);
      assert s[..4][0] == line[0] && BLANK[0] == '\r';
    }
  }

  lemma {:induction false} HeadEndOfHeaders(headers: seq<Header>, rest: string)
    requires headers != [] && forall i | 0 <= i < |headers| :: Printable(headers[i])
    ensures HeadEnd(Inner(headers) + (BLANK + rest)) == Some(|Inner(headers)|)
    decreases |headers|
  {
    HeaderLineNoEol(headers[0]);
    if |headers| == 1 {
      HeadEndOfLastLine(HeaderLine(headers[0]), rest);
    } else {
      HeadEndOfHeaders(headers[1..], rest);
      InnerStart(headers[1..]);
      HeadEndFurther(HeaderLine(headers[0]), Inner(headers[1..]), BLANK + rest);
      assert Inner(headers) == HeaderLine(headers[0]) + (CRLF + Inner(headers[1..]));
    }
  }

  lemma HeadEndFurther(line: string, inner: string, rest: string)
    requires NoEol(line) && inner != "" && !IsEol(inner[0])
    requires HeadEnd(inner + rest) == Some(|inner|)
    ensures HeadEnd(line + (CRLF + inner) + rest) == Some(|line + (CRLF + inner)|)
  {
    HeadEndJoined(line, inner, rest);
    assert |line + (CRLF + inner)| == |inner| + (|line| + 2);
  }

  /** The head of what the client sends ends at the blank line that the client ends it with. */
  lemma HeadEndOfRequest(method_: string, uri: string, headers: seq<Header>, rest: string)
    requires Sendable(method_, uri, headers)
    ensures HeadEnd(RequestText(method_, uri, headers) + rest) == Some(|HeadText(method_, uri, headers)|)
  {
    var line, inner := RequestLineText(method_, uri), Inner(headers);
    RequestLineNoEol(method_, uri);
    RequestIs(method_, uri, headers);
    HeadEndOfHeaders(headers, rest);
    InnerStart(headers);
    Regroup3(line + (CRLF + inner), BLANK, rest);
    HeadEndFurther(line, inner, BLANK + rest);
  }
}
