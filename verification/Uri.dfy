/** Escaping, making and parsing URIs. */
module Uri {
  import opened Collections
  import opened NumStr
  import opened Wrappers

  type Octet = c: char | c as int < 256 witness 'a'

  /** A C++ string: its characters are bytes. */
  type Text = seq<Octet>

  const HEX: string := "0123456789abcdef"

  predicate IsAlnum(ch: char) {
    'A' <= ch <= 'Z' || 'a' <= ch <= 'z' || '0' <= ch <= '9'
  }

  function Bin2Hex(ch: Octet): (s: string)
    ensures |s| == 2
  {
    [HEX[ch as int / 16], HEX[ch as int % 16]]
  }

  function EscapeChar(ch: Octet): (s: string)
    ensures s != [] && '?' !in s && '#' !in s && '/' !in s
  {
    if IsAlnum(ch) then [ch] else "%" + Bin2Hex(ch)
  }

  function Escaped(s: Text): (e: string)
    ensures '?' !in e && '#' !in e && '/' !in e
  {
    if s == [] then "" else EscapeChar(s[0]) + Escaped(s[1..])
  }

  method Escape(buffer: Text) returns (result: string)
    ensures result == Escaped(buffer) && Unescaped(result) == buffer
  {
    RoundTrip(buffer);
    result := "";
    for i := 0 to |buffer|
      invariant result + Escaped(buffer[i..]) == Escaped(buffer)
    {
      EscapedNext(buffer, i, result);
      result := AppendChar(result, buffer[i]);
    }
    assert result + "" == result;
  }

  method AppendChar(result: string, ch: Octet) returns (more: string)
    ensures more == result + EscapeChar(ch)
  {
    if IsAlnum(ch) {
      more := result + [ch];
    } else {
      more := result + "%";
      more := more + Bin2Hex(ch);
    }
  }

  lemma EscapedNext(s: Text, i: nat, done: string)
    requires i < |s|
    ensures done + Escaped(s[i..]) == done + EscapeChar(s[i]) + Escaped(s[i + 1..])
  {
    assert s[i..][1..] == s[i + 1..];
    Regroup3(done, EscapeChar(s[i]), Escaped(s[i + 1..]));
  }

  /** The character that two hexadecimal digits stand for, as ToUint reads them. */
  function HexChar(a: char, b: char): (ch: char)
    ensures ch as int == Read([a, b], 16, false, 0, Bits32) % 256
  {
    (Read([a, b], 16, false, 0, Bits32) % 256) as char
  }

  /** An escape that the string is too short for ends it. */
  function Unescaped(s: string): string
    decreases |s|
  {
    if s == "" then ""
    else if s[0] != '%' then [s[0]] + Unescaped(s[1..])
    else if |s| < 3 then ""
    else [HexChar(s[1], s[2])] + Unescaped(s[3..])
  }

  method Unescape(escaped: string) returns (result: string)
    ensures result == Unescaped(escaped)
  {
    result := "";
    var si := 0;
    while si < |escaped|
      invariant 0 <= si <= |escaped|
      invariant result + Unescaped(escaped[si..]) == Unescaped(escaped)
    {
      ghost var rest := escaped[si..];
      var ch := escaped[si];
      if ch != '%' {
        assert rest[1..] == escaped[si + 1..];
        Regroup3(result, [ch], Unescaped(rest[1..]));
        result := result + [ch];
      } else {
        si := si + 1;
        if si == |escaped| {
          break;
        }
        var hex := [escaped[si]];
        si := si + 1;
        if si == |escaped| {
          break;
        }
        hex := hex + [escaped[si]];
        assert hex == [rest[1], rest[2]] && rest[3..] == escaped[si + 1..];
        Regroup3(result, [HexChar(rest[1], rest[2])], Unescaped(rest[3..]));
        var u := ToUint(hex, 16, Bits32);
        result := result + [(u % 256) as char];
      }
      si := si + 1;
    }
  }

  lemma HexCharInverse(ch: Octet)
    ensures HexChar(Bin2Hex(ch)[0], Bin2Hex(ch)[1]) == ch
  {
    var hi, lo := ch as int / 16, ch as int % 16;
    HexPair(hi, lo);
    SameChar(HexChar(HEX[hi], HEX[lo]), ch);
  }

  lemma HexPair(hi: nat, lo: nat)
    requires hi < 16 && lo < 16
    ensures HexChar(HEX[hi], HEX[lo]) as int == 16 * hi + lo
  {
    HexDigit(hi);
    HexDigit(lo);
    HexCharIs(HEX[hi], HEX[lo]);
  }

  lemma SameChar(a: char, b: char)
    requires a as int == b as int
    ensures a == b
  {}

  lemma ReadTwo(a: char, b: char)
    requires IsDigit(a, 16) && IsDigit(b, 16)
    ensures Read([a, b], 16, false, 0, Bits32) == 16 * DigitValue(a) + DigitValue(b)
  {
    assert [a] + [b] == [a, b] && [b] + "" == [b];
    ReadOne(a, [b], 16, false, 0, Bits32);
    TwoDigits(DigitValue(a), DigitValue(b));
    ReadOne(b, "", 16, true, DigitValue(a), Bits32);
  }

  lemma TwoDigits(hi: nat, lo: nat)
    requires hi < 16 && lo < 16
    ensures Push(0, 16, hi, Bits32) == hi && Push(hi, 16, lo, Bits32) == 16 * hi + lo
  {}

  lemma HexDigit(d: nat)
    requires d < 16
    ensures IsDigit(HEX[d], 16) && DigitValue(HEX[d]) == d
  {}

  lemma EscapeCharInverse(ch: Octet, rest: string)
    ensures Unescaped(EscapeChar(ch) + rest) == [ch] + Unescaped(rest)
  {
    var e := EscapeChar(ch);
    var s := e + rest;
    assert s[|e|..] == rest && s[0] == e[0];
    if !IsAlnum(ch) {
      assert s[1] == Bin2Hex(ch)[0] && s[2] == Bin2Hex(ch)[1];
      HexCharInverse(ch);
    }
  }

  /** Escaped text is found again, whatever follows it. */
  lemma {:induction false} EscapeInverse(s: Text, rest: string)
    ensures Unescaped(Escaped(s) + rest) == s + Unescaped(rest)
  {
    if s == [] {
      assert Escaped(s) + rest == rest && s + Unescaped(rest) == Unescaped(rest);
    } else {
      var more := Escaped(s[1..]);
      EscapeInverse(s[1..], rest);
      EscapeCharInverse(s[0], more + rest);
      Regroup3(EscapeChar(s[0]), more, rest);
      HeadAndTail(s, Unescaped(rest));
    }
  }

  lemma HeadAndTail(s: string, t: string)
    requires s != ""
    ensures [s[0]] + (s[1..] + t) == s + t
  {}

  lemma RoundTrip(s: Text)
    ensures Unescaped(Escaped(s)) == s
  {
    EscapeInverse(s, "");
    assert Escaped(s) + "" == Escaped(s) && s + "" == s;
  }

  predicate AllAlnum(s: string) {
    forall i | 0 <= i < |s| :: IsAlnum(s[i])
  }

  /** How many characters are no letters and no digits. */
  function OthersIn(s: Text): nat {
    if s == [] then 0 else (if IsAlnum(s[0]) then 0 else 1) + OthersIn(s[1..])
  }

  /** An octet is escaped by its two hexadecimal digits, in small letters. */
  lemma EscapeCharIs(ch: Octet)
    ensures EscapeChar(ch) == if 'A' <= ch <= 'Z' || 'a' <= ch <= 'z' || '0' <= ch <= '9' then [ch]
                              else ['%', SmallDigit(ch as int / 16), SmallDigit(ch as int % 16)]
  {
    SmallDigitIs(ch as int / 16);
    SmallDigitIs(ch as int % 16);
  }

  function SmallDigit(d: nat): char
    requires d < 16
  {
    if d < 10 then '0' + d as char else 'a' + (d - 10) as char
  }

  lemma SmallDigitIs(d: nat)
    requires d < 16
    ensures HEX[d] == SmallDigit(d)
  {}

  /** Escaping leaves just letters and digits as they are, and takes two characters more for each other one. */
  lemma EscapedIs(s: Text)
    ensures |Escaped(s)| == |s| + 2 * OthersIn(s)
    ensures forall i | 0 <= i < |Escaped(s)| :: IsAlnum(Escaped(s)[i]) || Escaped(s)[i] == '%'
    ensures Escaped(s) == s <==> AllAlnum(s)
  {
    EscapedPlain(s);
    EscapedLength(s);
    EscapedCharacters(s);
  }

  lemma {:induction false} EscapedLength(s: Text)
    ensures |Escaped(s)| == |s| + 2 * OthersIn(s)
  {
    if s != [] {
      EscapedLength(s[1..]);
    }
  }

  lemma {:induction false} EscapedCharacters(s: Text)
    ensures forall i | 0 <= i < |Escaped(s)| :: IsAlnum(Escaped(s)[i]) || Escaped(s)[i] == '%'
  {
    if s != [] {
      EscapedCharacters(s[1..]);
      HexDigitsAreAlnum(s[0]);
    }
  }

  lemma {:induction false} EscapedPlain(s: Text)
    ensures AllAlnum(s) <==> OthersIn(s) == 0
    ensures AllAlnum(s) ==> Escaped(s) == s
  {
    if s != [] {
      EscapedPlain(s[1..]);
      OthersFollow(s);
      assert s == [s[0]] + s[1..];
    }
  }

  lemma OthersFollow(s: Text)
    requires s != []
    ensures AllAlnum(s) <==> IsAlnum(s[0]) && AllAlnum(s[1..])
  {
    assert s == [s[0]] + s[1..];
  }

  lemma HexDigitsAreAlnum(ch: Octet)
    ensures IsAlnum(Bin2Hex(ch)[0]) && IsAlnum(Bin2Hex(ch)[1]) && !IsAlnum('%')
  {
    HexDigitIsAlnum(ch as int / 16);
    HexDigitIsAlnum(ch as int % 16);
  }

  lemma HexDigitIsAlnum(d: nat)
    requires d < 16
    ensures IsAlnum(HEX[d])
  {}

  /** Text without '%' is its own unescaped form, whatever follows it. */
  lemma {:induction false} UnescapedPlain(s: string, rest: string)
    requires '%' !in s
    ensures Unescaped(s + rest) == s + Unescaped(rest)
  {
    if s == "" {
      assert s + rest == rest && s + Unescaped(rest) == Unescaped(rest);
    } else {
      assert (s + rest)[1..] == s[1..] + rest;
      UnescapedPlain(s[1..], rest);
      HeadAndTail(s, Unescaped(rest));
    }
  }

  /** An escape stands for the number of its two digits, in upper or lower case; one that is cut off ends the
      text. */
  lemma UnescapedEscape(a: char, b: char, rest: string)
    requires IsDigit(a, 16) && IsDigit(b, 16)
    ensures var ch := (16 * DigitValue(a) + DigitValue(b)) as char; Unescaped("%" + ([a, b] + rest)) == [ch] + Unescaped(rest)
    ensures Unescaped("%" + [a]) == "" && Unescaped("%") == ""
  {
    var s := "%" + ([a, b] + rest);
    assert s[1] == a && s[2] == b && s[3..] == rest;
    UnescapedHex(s, rest);
    HexCharIs(a, b);
    UnescapedCut("%" + [a]);
    UnescapedCut("%");
  }

  lemma UnescapedHex(s: string, rest: string)
    requires |s| >= 3 && s[0] == '%' && rest == s[3..]
    ensures Unescaped(s) == [HexChar(s[1], s[2])] + Unescaped(rest)
  {}

  lemma UnescapedCut(s: string)
    requires 0 < |s| < 3 && s[0] == '%'
    ensures Unescaped(s) == ""
  {}

  lemma HexCharIs(a: char, b: char)
    requires IsDigit(a, 16) && IsDigit(b, 16)
    ensures HexChar(a, b) as int == 16 * DigitValue(a) + DigitValue(b)
  {
    ReadTwo(a, b);
    var n := 16 * DigitValue(a) + DigitValue(b);
    assert n < 256;
  }

  function EscapedPath(segments: seq<Text>): (path: string)
    ensures '?' !in path && '#' !in path
  {
    if segments == [] then ""
    else EscapedPath(segments[..|segments| - 1]) + ("/" + Escaped(segments[|segments| - 1]))
  }

  function PathOf(segments: seq<Text>): string {
    if segments == [] then "" else PathOf(segments[..|segments| - 1]) + ("/" + segments[|segments| - 1])
  }

  /** Path segments, each behind a slash, and a query if it is not empty; nothing at all if there is no list. */
  function UriOf(segments: Option<seq<Text>>, query: string): string {
    if segments.None? then ""
    else EscapedPath(segments.value) + if query == "" then "" else "?" + query
  }

  method MakeURI(segments: Option<seq<Text>>, query: string) returns (result: string)
    ensures result == UriOf(segments, query) && (segments.None? ==> result == "")
    ensures segments.Some? ==>
              Parse(result) == Some(Parts(PathOf(segments.value), Unescaped(QueryPart(query)), Unescaped(FragmentPart(query))))
  {
    if segments.Some? {
      UriRoundTrip(segments.value, query);
    }
    result := PrintURI(segments, query);
  }

  method PrintURI(segments: Option<seq<Text>>, query: string) returns (result: string)
    ensures result == UriOf(segments, query)
  {
    result := "";
    if segments.Some? {
      var list := segments.value;
      for i := 0 to |list|
        invariant result == EscapedPath(list[..i])
      {
        result := result + "/";
        var e := Escape(list[i]);
        Regroup3(EscapedPath(list[..i]), "/", e);
        assert list[..i + 1][..i] == list[..i];
        result := result + e;
      }
      assert list[..|list|] == list;
      if query != "" {
        Regroup3(result, "?", query);
        result := result + "?";
        result := result + query;
      }
    }
  }

  /** The first place of `ch` in `s`. */
  function Find(s: string, ch: char): (at: Option<nat>)
    ensures at.Some? ==> at.value < |s| && s[at.value] == ch
  {
    if s == "" then None
    else if s[0] == ch then Some(0)
    else
      var at := Find(s[1..], ch);
      if at.None? then None else Some(at.value + 1)
  }

  datatype Parts = Parts(path: string, query: string, fragment: string)

  /** The parts of a URI, still escaped; nothing if there is a '#' before the first '?', which the code does
      not accept. */
  function Split(uri: string): Option<Parts> {
    SplitAt(uri, Find(uri, '?'), Find(uri, '#'))
  }

  function SplitAt(uri: string, q: Option<nat>, f: Option<nat>): Option<Parts>
    requires (q.Some? ==> q.value < |uri|) && (f.Some? ==> f.value < |uri|)
  {
    if q.Some? && f.Some? && f.value <= q.value then None
    else
      var end := if f.Some? then f.value else |uri|;
      var fragment := if f.Some? then uri[f.value + 1..] else "";
      if q.Some? then Some(Parts(uri[..q.value], uri[q.value + 1..end], fragment))
      else Some(Parts(uri[..end], "", fragment))
  }

  function Parse(uri: string): Option<Parts> {
    if Split(uri).None? then None
    else
      var raw := Split(uri).value;
      Some(Parts(Unescaped(raw.path), Unescaped(raw.query), Unescaped(raw.fragment)))
  }

  method ParseURI(uri: string) returns (parts: Option<Parts>)
    ensures parts == Parse(uri)
    ensures parts.None? <==> '?' in uri && exists i: nat :: i < |uri| && uri[i] == '#' && '?' !in uri[..i]
  {
    RefusedIff(uri);
    var path, query, fragment := "", "", "";
    var idxQuery := Find(uri, '?');
    var idxFragment := Find(uri, '#');
    assert uri[..|uri|] == uri;
    if idxQuery.Some? {
      path := Unescape(uri[..idxQuery.value]);
      if idxFragment.Some? {
        if idxFragment.value > idxQuery.value {
          query := Unescape(uri[idxQuery.value + 1..idxFragment.value]);
          fragment := Unescape(uri[idxFragment.value + 1..]);
        } else {
          return None;
        }
      } else {
        query := Unescape(uri[idxQuery.value + 1..]);
      }
    } else if idxFragment.Some? {
      path := Unescape(uri[..idxFragment.value]);
      fragment := Unescape(uri[idxFragment.value + 1..]);
    } else {
      path := Unescape(uri);
    }
    parts := Some(Parts(path, query, fragment));
  }

  lemma {:induction false} FindFirst(s: string, ch: char)
    ensures Find(s, ch).None? <==> ch !in s
    ensures Find(s, ch).Some? ==> ch !in s[..Find(s, ch).value]
  {
    if s != "" && s[0] != ch {
      FindFirst(s[1..], ch);
      if Find(s, ch).Some? {
        assert s[..Find(s, ch).value] == [s[0]] + s[1..][..Find(s, ch).value - 1];
      } else {
        assert s == [s[0]] + s[1..];
      }
    }
  }

  lemma {:induction false} FindBehind(p: string, s: string, ch: char)
    requires ch !in p
    ensures Find(p + s, ch) == if Find(s, ch).None? then None else Some(|p| + Find(s, ch).value)
  {
    if p == "" {
      assert p + s == s;
    } else {
      assert (p + s)[1..] == p[1..] + s;
      FindBehind(p[1..], s, ch);
    }
  }

  lemma FoundBehind(p: string, ch: char, more: string)
    requires ch !in p
    ensures Find(p + ([ch] + more), ch) == Some(|p|)
  {
    FindBehind(p, [ch] + more, ch);
  }

  lemma NotFound(s: string, ch: char)
    requires ch !in s
    ensures Find(s, ch) == None
  {
    FindFirst(s, ch);
  }

  /** A part of a URI behind its mark, if there is one. */
  function Marked(mark: char, part: Option<string>): string {
    if part.None? then "" else [mark] + part.value
  }

  function OrEmpty(part: Option<string>): string {
    if part.None? then "" else part.value
  }

  /** Any other URI is one of these, and gives its three parts, each unescaped. */
  lemma ParseIs(path: string, query: Option<string>, fragment: Option<string>)
    requires '?' !in path && '#' !in path && '#' !in OrEmpty(query)
    requires query.None? ==> '?' !in OrEmpty(fragment)
    ensures Parse(path + (Marked('?', query) + Marked('#', fragment)))
            == Some(Parts(Unescaped(path), Unescaped(OrEmpty(query)), Unescaped(OrEmpty(fragment))))
  {
    var uri := path + (Marked('?', query) + Marked('#', fragment));
    MarksOf(path, query, fragment, uri);
    SplitIs(path, query, fragment, uri);
  }

  lemma MarksOf(path: string, query: Option<string>, fragment: Option<string>, uri: string)
    requires '?' !in path && '#' !in path && '#' !in OrEmpty(query)
    requires query.None? ==> '?' !in OrEmpty(fragment)
    requires uri == path + (Marked('?', query) + Marked('#', fragment))
    ensures Find(uri, '?') == if query.None? then None else Some(|path|)
    ensures Find(uri, '#') == if fragment.None? then None else Some(|path + Marked('?', query)|)
  {
    if query.Some? {
      Regroup3("?", query.value, Marked('#', fragment));
      FoundBehind(path, '?', query.value + Marked('#', fragment));
    } else {
      NotFound(uri, '?');
    }
    Regroup3(path, Marked('?', query), Marked('#', fragment));
    if fragment.Some? {
      FoundBehind(path + Marked('?', query), '#', fragment.value);
    } else {
      NotFound(uri, '#');
    }
  }

  lemma SplitIs(path: string, query: Option<string>, fragment: Option<string>, uri: string)
    requires uri == path + (Marked('?', query) + Marked('#', fragment))
    ensures SplitAt(uri, if query.None? then None else Some(|path|),
                    if fragment.None? then None else Some(|path + Marked('?', query)|))
            == Some(Parts(path, OrEmpty(query), OrEmpty(fragment)))
  {
    var q, f := path + Marked('?', query), Marked('#', fragment);
    Regroup3(path, Marked('?', query), f);
    assert uri[..|path|] == path && uri[..|q|] == q;
    assert query.Some? ==> uri[|path| + 1..|q|] == query.value;
    assert fragment.Some? ==> uri[|q| + 1..] == fragment.value;
    assert fragment.None? ==> |q| == |uri|;
  }

  /** A URI is refused exactly if a '#' stands before its first '?'. */
  lemma RefusedIff(uri: string)
    ensures Parse(uri).None? <==> '?' in uri && exists i: nat :: i < |uri| && uri[i] == '#' && '?' !in uri[..i]
  {
    FindFirst(uri, '?');
    FindFirst(uri, '#');
    if Parse(uri).None? {
      TakePrefix(uri, Find(uri, '#').value, Find(uri, '?').value);
    }
    forall i: nat | i < |uri| && uri[i] == '#' && '?' !in uri[..i] && '?' in uri ensures Parse(uri).None? {
      HashFirst(uri, i);
    }
  }

  lemma TakePrefix(s: string, i: nat, j: nat)
    requires i <= j <= |s| && '?' !in s[..j]
    ensures '?' !in s[..i]
  {
    assert s[..i] == s[..j][..i];
  }

  lemma HashFirst(uri: string, i: nat)
    requires i < |uri| && uri[i] == '#' && '?' !in uri[..i] && '?' in uri
    ensures Find(uri, '#').Some? && Find(uri, '?').Some? && Find(uri, '#').value <= Find(uri, '?').value
  {
    FindFirst(uri, '?');
    FindBehind(uri[..i], uri[i..], '?');
    assert uri == uri[..i] + uri[i..];
    FindNoLater(uri, '#', i);
  }

  lemma {:induction false} FindNoLater(s: string, ch: char, i: nat)
    requires i < |s| && s[i] == ch
    ensures Find(s, ch).Some? && Find(s, ch).value <= i
  {
    if s[0] != ch {
      FindNoLater(s[1..], ch, i - 1);
    }
  }

  lemma {:induction false} PathInverse(segments: seq<Text>, rest: string)
    ensures Unescaped(EscapedPath(segments) + rest) == PathOf(segments) + Unescaped(rest)
  {
    if segments == [] {
      assert EscapedPath(segments) + rest == rest;
    } else {
      var init, last := segments[..|segments| - 1], segments[|segments| - 1];
      var more := "/" + (Escaped(last) + rest);
      Regroup4(EscapedPath(init), "/", Escaped(last), rest);
      PathInverse(init, more);
      assert more[1..] == Escaped(last) + rest;
      EscapeInverse(last, rest);
      Regroup4(PathOf(init), "/", last, Unescaped(rest));
    }
  }

  /** The query as far as its first '#'. */
  function QueryPart(query: string): string {
    if Find(query, '#').None? then query else query[..Find(query, '#').value]
  }

  function FragmentPart(query: string): string {
    if Find(query, '#').None? then "" else query[Find(query, '#').value + 1..]
  }

  /** What MakeURI put together, ParseURI takes apart: the path as it was, and query and fragment as the
      unescaped parts around the query's first '#'. */
  lemma UriRoundTrip(segments: seq<Text>, query: string)
    ensures Parse(UriOf(Some(segments), query))
            == Some(Parts(PathOf(segments), Unescaped(QueryPart(query)), Unescaped(FragmentPart(query))))
  {
    var path := EscapedPath(segments);
    PathInverse(segments, "");
    assert path + "" == path && PathOf(segments) + Unescaped("") == PathOf(segments);
    if query != "" {
      SplitWithQuery(path, query);
    } else {
      assert path[..|path|] == path;
    }
  }

  lemma SplitWithQuery(path: string, query: string)
    requires '?' !in path && '#' !in path
    ensures Split(path + ("?" + query)) == Some(Parts(path, QueryPart(query), FragmentPart(query)))
  {
    FindInUri(path, query, path + ("?" + query));
    SplitFound(path, query, path + ("?" + query), Find(query, '#'));
  }

  lemma SplitFound(path: string, query: string, uri: string, f: Option<nat>)
    requires uri == path + ("?" + query) && f == Find(query, '#')
    requires Find(uri, '?') == Some(|path|)
    requires Find(uri, '#') == if f.None? then None else Some(|path| + 1 + f.value)
    ensures Split(uri) == Some(Parts(path, QueryPart(query), FragmentPart(query)))
  {
    SplitHere(path, query, uri, f);
  }

  lemma SplitHere(path: string, query: string, uri: string, f: Option<nat>)
    requires uri == path + ("?" + query) && (f.Some? ==> f.value < |query|)
    ensures f.None? ==> SplitAt(uri, Some(|path|), None) == Some(Parts(path, query, ""))
    ensures f.Some? ==> SplitAt(uri, Some(|path|), Some(|path| + 1 + f.value))
                        == Some(Parts(path, query[..f.value], query[f.value + 1..]))
  {
    UriSlices(path, query, uri, if f.None? then |query| else f.value);
  }

  lemma FindInUri(path: string, query: string, uri: string)
    requires uri == path + ("?" + query) && '?' !in path && '#' !in path
    ensures Find(uri, '?') == Some(|path|)
    ensures Find(uri, '#') == if Find(query, '#').None? then None else Some(|path| + 1 + Find(query, '#').value)
  {
    FindBehind(path, "?" + query, '?');
    FindBehind(path, "?" + query, '#');
    FindBehind("?", query, '#');
  }

  lemma UriSlices(path: string, query: string, uri: string, f: nat)
    requires uri == path + ("?" + query) && f <= |query|
    ensures uri[..|path|] == path
    ensures uri[|path| + 1..|path| + 1 + f] == query[..f]
    ensures f < |query| ==> uri[|path| + 1 + f + 1..] == query[f + 1..]
    ensures query[..|query|] == query
  {}
}
