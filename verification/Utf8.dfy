/** UTF-8. On the numbers that occur, a shift by six bits is a division or multiplication by 64, a mask
    is a remainder, and the bits that are put together never overlap, so that they add up. */
module Utf8 {
  import opened Bytes

  type Char = c: int | 0 <= c < 0x1_0000_0000

  /** The characters that section 3 of RFC 3629 encodes: up to 10FFFF, without the surrogates. */
  predicate IsScalar(ch: Char) {
    ch <= 0x10FFFF && !(0xD800 <= ch <= 0xDFFF)
  }

  predicate AreScalars(s: seq<Char>) {
    forall i | 0 <= i < |s| :: IsScalar(s[i])
  }

  predicate IsTail(o: byte) {
    0x80 <= o <= 0xBF
  }

  /** The UTF8-1, UTF8-2, UTF8-3 and UTF8-4 productions of section 4 of RFC 3629. */
  predicate IsUtf8Char(s: seq<byte>) {
    || (|s| == 1 && s[0] <= 0x7F)
    || (|s| == 2 && 0xC2 <= s[0] <= 0xDF && IsTail(s[1]))
    || (|s| == 3 && IsTail(s[2])
        && ((s[0] == 0xE0 && 0xA0 <= s[1] <= 0xBF) || (0xE1 <= s[0] <= 0xEC && IsTail(s[1]))
            || (s[0] == 0xED && 0x80 <= s[1] <= 0x9F) || (0xEE <= s[0] <= 0xEF && IsTail(s[1]))))
    || (|s| == 4 && IsTail(s[2]) && IsTail(s[3])
        && ((s[0] == 0xF0 && 0x90 <= s[1] <= 0xBF) || (0xF1 <= s[0] <= 0xF3 && IsTail(s[1]))
            || (s[0] == 0xF4 && 0x80 <= s[1] <= 0x8F)))
  }

  /** How many octets the character takes that starts with `lead`. */
  function LengthOf(lead: byte): (n: nat)
    ensures 1 <= n <= 4
  {
    if lead <= 0x7F then 1 else if lead <= 0xDF then 2 else if lead <= 0xEF then 3 else 4
  }

  /** Well-formed UTF-8: a sequence of such characters. */
  predicate IsUtf8(s: seq<byte>)
    decreases |s|
  {
    || s == []
    || (|s| >= LengthOf(s[0]) && IsUtf8Char(s[..LengthOf(s[0])]) && IsUtf8(s[LengthOf(s[0])..]))
  }

  /** The octet for the lowest six bits. */
  function TailOf(u: Char): (o: byte)
    ensures IsTail(o) && o % 64 == u % 64
  {
    0x80 + u % 64
  }

  /** What ToUTF8 appends for a character: nothing if it is out of range. */
  function EncodeChar(ch: Char): (s: seq<byte>)
    ensures |s| <= 4
  {
    if ch <= 0x7F then [ch]
    else if ch <= 0x7FF then [0xC0 + ch / 64, TailOf(ch)]
    else if 0xD800 <= ch <= 0xDFFF then []
    else if ch <= 0xFFFF then [0xE0 + ch / 4096, TailOf(ch / 64), TailOf(ch)]
    else if ch <= 0x10FFFF then [0xF0 + ch / 262144, TailOf(ch / 4096), TailOf(ch / 64), TailOf(ch)]
    else []
  }

  function Encode(s: seq<Char>): seq<byte> {
    if s == [] then [] else EncodeChar(s[0]) + Encode(s[1..])
  }

  lemma EncodeCharIsUtf8(ch: Char)
    requires IsScalar(ch)
    ensures EncodeChar(ch) != [] && IsUtf8Char(EncodeChar(ch)) && LengthOf(EncodeChar(ch)[0]) == |EncodeChar(ch)|
  {
    if 0x7FF < ch <= 0xFFFF {
      ThreeOctets(ch);
    } else if 0xFFFF < ch {
      FourOctets(ch);
    }
  }

  lemma ThreeOctets(ch: Char)
    requires IsScalar(ch) && 0x7FF < ch <= 0xFFFF
    ensures IsUtf8Char(EncodeChar(ch)) && 0xE0 <= EncodeChar(ch)[0] <= 0xEF
  {}

  lemma FourOctets(ch: Char)
    requires 0xFFFF < ch <= 0x10FFFF
    ensures IsUtf8Char(EncodeChar(ch)) && 0xF0 <= EncodeChar(ch)[0] <= 0xF4
  {}

  /** The body of ToUTF8's loop. */
  method AppendChar(dst: seq<byte>, ch: Char) returns (ok: bool, more: seq<byte>)
    ensures ok <==> IsScalar(ch)
    ensures more == dst + EncodeChar(ch)
  {
    ok, more := true, dst;
    if ch <= 0x7F {
      more := more + [ch];
    } else if ch <= 0x7FF {
      more := more + [0xC0 + ch / 64];
      more := more + [0x80 + ch % 64];
    } else if ch >= 0xD800 && ch <= 0xDFFF {
      ok := false;
    } else if ch <= 0xFFFF {
      more := more + [0xE0 + ch / 4096];
      more := more + [0x80 + ch / 64 % 64];
      more := more + [0x80 + ch % 64];
    } else if ch <= 0x10FFFF {
      more := more + [0xF0 + ch / 262144];
      more := more + [0x80 + ch / 4096 % 64];
      more := more + [0x80 + ch / 64 % 64];
      more := more + [0x80 + ch % 64];
    } else {
      ok := false;
    }
  }

  /** True exactly if every character is a scalar value; what is out of range is left out. */
  method ToUTF8(src: seq<Char>) returns (ok: bool, dst: seq<byte>)
    ensures ok <==> AreScalars(src)
    ensures dst == Encode(src) && IsUtf8(dst)
    ensures Decode(dst) == Accepted(Scalars(src)) && (ok ==> Scalars(src) == src)
  {
    ok, dst := true, [];
    for i := 0 to |src|
      invariant ok <==> AreScalars(src[..i])
      invariant dst == Encode(src[..i])
    {
      var fits;
      fits, dst := AppendChar(dst, src[i]);
      EncodeNext(src[..i], src[i]);
      ScalarsNext(src[..i], src[i]);
      assert src[..i + 1] == src[..i] + [src[i]];
      ok := ok && fits;
    }
    assert src[..|src|] == src;
    EncodeLeavesOut(src);
    EncodeIsUtf8(Scalars(src));
    RoundTrip(Scalars(src));
  }

  /** The scalar values among some characters. */
  function Scalars(s: seq<Char>): seq<Char> {
    if s == [] then [] else (if IsScalar(s[0]) then [s[0]] else []) + Scalars(s[1..])
  }

  /** ToUTF8 leaves out just the others. */
  lemma {:induction false} EncodeLeavesOut(s: seq<Char>)
    ensures AreScalars(Scalars(s)) && Encode(Scalars(s)) == Encode(s)
    ensures AreScalars(s) ==> Scalars(s) == s
  {
    if s != [] {
      EncodeLeavesOut(s[1..]);
      EncodeFirst(s[0], Scalars(s[1..]), Encode(s[1..]));
    }
  }

  lemma EncodeFirst(ch: Char, rest: seq<Char>, more: seq<byte>)
    requires AreScalars(rest) && Encode(rest) == more
    ensures var first: seq<Char> := if IsScalar(ch) then [ch] else [];
            AreScalars(first + rest) && Encode(first + rest) == EncodeChar(ch) + more
  {
    if IsScalar(ch) {
      assert ([ch] + rest)[1..] == rest;
    } else {
      assert [] + rest == rest && [] + more == more;
    }
  }

  lemma ScalarsNext(s: seq<Char>, ch: Char)
    ensures AreScalars(s + [ch]) <==> AreScalars(s) && IsScalar(ch)
  {
    assert (s + [ch])[|s|] == ch && forall i | 0 <= i < |s| :: (s + [ch])[i] == s[i];
  }

  lemma {:induction false} EncodeNext(s: seq<Char>, ch: Char)
    ensures Encode(s + [ch]) == Encode(s) + EncodeChar(ch)
  {
    if s != [] {
      EncodeNext(s[1..], ch);
      assert (s + [ch])[1..] == s[1..] + [ch];
    } else {
      assert Encode([ch][1..]) == [];
    }
  }

  /** What ToUTF8 makes of scalar values is well-formed. */
  lemma {:induction false} EncodeIsUtf8(s: seq<Char>)
    requires AreScalars(s)
    ensures IsUtf8(Encode(s))
  {
    if s != [] {
      EncodeIsUtf8(s[1..]);
      EncodeCharIsUtf8(s[0]);
      var first, rest := EncodeChar(s[0]), Encode(s[1..]);
      assert (first + rest)[..|first|] == first && (first + rest)[|first|..] == rest;
    }
  }

  /** What FromUTF8 comes to: all of the source is taken, or it gives up after some characters, or it runs
      on beyond the end of the source, where anything may happen. */
  datatype Outcome = Accepted(chars: seq<Char>) | Rejected(chars: seq<Char>) | Overrun
  {
    function After(chars: seq<Char>): Outcome {
      match this
      case Accepted(more) => Accepted(chars + more)
      case Rejected(more) => Rejected(chars + more)
      case Overrun => Overrun
    }
  }

  /** How many octets FromUTF8 expects behind `ch`, the bits of the character that `ch` has, and the least
      character that may take that many octets; nothing if no character starts so. */
  datatype Lead = Lead(iterations: nat, bits: Char, range: Char) | NotALead

  function LeadOf(ch: byte): (l: Lead)
    ensures l.Lead? ==> l.iterations <= 3 && l.bits < 0x80
    ensures l.Lead? && l.iterations > 0 ==> l.bits < 0x20
  {
    if ch < 0x80 then Lead(0, ch, 0)
    else if ch / 0x20 == 0xC0 / 0x20 then Lead(1, ch % 0x20, 0x80)
    else if ch / 0x10 == 0xE0 / 0x10 then Lead(2, ch % 0x10, 0x800)
    else if ch / 0x08 == 0xF0 / 0x08 then Lead(3, ch % 0x08, 0x1_0000)
    else NotALead
  }

  /** The value of six more bits behind those of `u`. */
  function More(u: Char, o: byte): Char {
    Shift(u) + o % 64
  }

  /** A shift by six bits; in 32 bits, the highest are lost. */
  function Shift(u: Char): (v: Char)
    ensures v % 64 == 0
  {
    if u < 0x400_0000 then u * 64 else u % 0x400_0000 * 64
  }

  /** `u`, with six bits of each of the next `n` octets shifted in, in 32 bits. Where the octets run out,
      room has been made for six more bits. */
  function ShiftIn(u: Char, s: seq<byte>, n: nat): Char
    decreases n
  {
    if n == 0 then u
    else if s == [] then Shift(u)
    else ShiftIn(More(u, s[0]), s[1..], n - 1)
  }

  /** FromUTF8, character by character. */
  function Decode(s: seq<byte>): Outcome
    decreases |s|
  {
    if s == [] then Accepted([])
    else
      match LeadOf(s[0])
      case NotALead => Rejected([])
      case Lead(n, bits, range) =>
        var u := ShiftIn(bits, s[1..], n);
        if u < range then Rejected([])
        else if n + 1 > |s| then Overrun
        else Decode(s[n + 1..]).After([u])
  }

  /** The inner loop. */
  method ReadTail(src: seq<byte>, si: nat, n: nat, bits: Char) returns (end: nat, u: Char, ok: bool)
    requires si < |src|
    ensures u == ShiftIn(bits, src[si + 1..], n)
    ensures ok <==> si + n < |src|
    ensures end == if ok then si + n else |src|
  {
    end, u, ok := si, bits, true;
    var i := 0;
    while i < n
      invariant 0 <= i <= n && ok && end == si + i < |src|
      invariant ShiftIn(u, src[end + 1..], n - i) == ShiftIn(bits, src[si + 1..], n)
    {
      ghost var rest := src[end + 1..];
      u := Shift(u);
      end := end + 1;
      if end == |src| {
        ok := false;
        break;
      }
      u := u + src[end] % 64;
      assert rest[1..] == src[end + 1..];
      i := i + 1;
    }
  }

  /** What the outer loop finds at one position: a character, and where the next one starts; or that it has
      to give up; or that it goes beyond the end. */
  datatype Step = Got(u: Char, next: nat) | GiveUp | GoBeyond

  /** Decode at a character whose bits, as far as there are any, are `u`. */
  lemma DecodeOne(s: seq<byte>, lead: Lead, u: Char)
    requires s != [] && lead == LeadOf(s[0]) && (lead.Lead? ==> u == ShiftIn(lead.bits, s[1..], lead.iterations))
    ensures lead.NotALead? || u < lead.range ==> Decode(s) == Rejected([])
    ensures lead.Lead? && u >= lead.range ==>
              Decode(s) == if lead.iterations + 1 > |s| then Overrun else Decode(s[lead.iterations + 1..]).After([u])
  {}

  method ReadChar(src: seq<byte>, start: nat) returns (step: Step)
    requires start < |src|
    ensures step.Got? ==> start < step.next <= |src| && Decode(src[start..]) == Decode(src[step.next..]).After([step.u])
    ensures step.GiveUp? ==> Decode(src[start..]) == Rejected([])
    ensures step.GoBeyond? ==> Decode(src[start..]) == Overrun
  {
    ghost var rest := src[start..];
    assert rest[0] == src[start] && rest[1..] == src[start + 1..];
    var lead := LeadOf(src[start]);
    if lead.NotALead? {
      DecodeOne(rest, lead, 0);
      return GiveUp;
    }
    var si, u, ok := ReadTail(src, start, lead.iterations, lead.bits);
    DecodeOne(rest, lead, u);
    if u < lead.range {
      return GiveUp;
    }
    if si == |src| {
      // the iterator is moved beyond the end
      return GoBeyond;
    }
    assert rest[lead.iterations + 1..] == src[si + 1..];
    step := Got(u, si + 1);
  }

  method FromUTF8(src: seq<byte>) returns (outcome: Outcome)
    ensures outcome == Decode(src)
    ensures outcome.Accepted? <==> IsLoose(src)
    ensures outcome.Accepted? ==> outcome.chars == Values(src)
    ensures outcome.Rejected? ==> outcome.chars == FirstValues(src)
    ensures outcome.Overrun? <==> EndsLackingOneOctet(src)
    ensures IsUtf8(src) ==> outcome.Accepted? && AreScalars(outcome.chars) && Encode(outcome.chars) == src
  {
    AcceptedIff(src);
    RejectedIs(src);
    OverrunIff(src);
    if IsUtf8(src) {
      WellFormedIsAccepted(src);
    }
    outcome := DecodeAll(src);
  }

  method DecodeAll(src: seq<byte>) returns (outcome: Outcome)
    ensures outcome == Decode(src)
  {
    var dst: seq<Char> := [];
    if src == [] {
      return Accepted([]);
    }
    var si := 0;
    ghost var all := Decode(src);
    assert src[0..] == src;
    AfterTwice(all, [], []);
    while si < |src|
      invariant 0 <= si <= |src|
      invariant all == Decode(src[si..]).After(dst)
    {
      var step := ReadChar(src, si);
      assert dst + [] == dst;
      if step.GiveUp? {
        return Rejected(dst);
      }
      if step.GoBeyond? {
        return Overrun;
      }
      AfterTwice(Decode(src[step.next..]), [step.u], dst);
      dst := dst + [step.u];
      si := step.next;
    }
    assert dst + [] == dst;
    outcome := Accepted(dst);
  }

  lemma AfterTwice(o: Outcome, b: seq<Char>, a: seq<Char>)
    ensures o.After(b).After(a) == o.After(a + b)
    ensures o.After([]) == o
  {
    if !o.Overrun? {
      assert a + (b + o.chars) == a + b + o.chars && [] + o.chars == o.chars;
    }
  }

  /** The value of a character's octets. */
  function Value(s: seq<byte>): (u: Char)
    requires 1 <= |s| <= 4
  {
    if |s| == 1 then s[0]
    else if |s| == 2 then More(s[0] % 0x20, s[1])
    else if |s| == 3 then More(More(s[0] % 0x10, s[1]), s[2])
    else More(More(More(s[0] % 0x08, s[1]), s[2]), s[3])
  }

  lemma ShiftOne(u: Char, t: seq<byte>, n: nat)
    requires n > 0 && t != []
    ensures ShiftIn(u, t, n) == ShiftIn(More(u, t[0]), t[1..], n - 1)
  {}

  /** The inner loop finds the value of the octets. */
  lemma ShiftedIn(s: seq<byte>, n: nat)
    requires s != [] && LeadOf(s[0]).Lead? && n == LeadOf(s[0]).iterations < |s|
    ensures ShiftIn(LeadOf(s[0]).bits, s[1..], n) == Value(s[..n + 1])
  {
    var u, t := LeadOf(s[0]).bits, s[1..];
    if n >= 1 {
      ShiftOne(u, t, n);
    }
    if n >= 2 {
      ShiftOne(More(u, t[0]), t[1..], n - 1);
    }
    if n >= 3 {
      ShiftOne(More(More(u, t[0]), t[1]), t[2..], n - 2);
      assert t[1..][1..] == t[2..];
    }
  }

  /** Adding to the lowest six bits, and taking them off again. */
  lemma MoreInverse(u: Char, o: byte)
    requires u < 0x4_0000
    ensures More(u, o) / 64 == u && More(u, o) % 64 == o % 64
    ensures IsTail(o) ==> 0x80 + More(u, o) % 64 == o
  {}

  lemma MoreOf(ch: Char)
    requires ch <= 0x10FFFF
    ensures More(ch / 64, TailOf(ch)) == ch
  {}

  lemma Quotients(ch: Char)
    ensures ch / 64 / 64 == ch / 4096 && ch / 4096 / 64 == ch / 262144
  {}

  lemma OfTwo(ch: Char)
    requires 0x7F < ch <= 0x7FF
    ensures LeadOf(0xC0 + ch / 64) == Lead(1, ch / 64, 0x80) && More((0xC0 + ch / 64) % 0x20, TailOf(ch)) == ch
  {
    MoreOf(ch);
  }

  lemma LeadOfThree(q: nat)
    requires q < 0x10
    ensures LeadOf(0xE0 + q) == Lead(2, q, 0x800) && (0xE0 + q) % 0x10 == q
  {}

  lemma LeadOfFour(q: nat)
    requires q < 0x08
    ensures LeadOf(0xF0 + q) == Lead(3, q, 0x1_0000) && (0xF0 + q) % 0x08 == q
  {}

  lemma OfThree(ch: Char)
    requires 0x7FF < ch <= 0xFFFF
    ensures LeadOf(0xE0 + ch / 4096) == Lead(2, ch / 4096, 0x800)
    ensures More(More((0xE0 + ch / 4096) % 0x10, TailOf(ch / 64)), TailOf(ch)) == ch
  {
    LeadOfThree(ch / 4096);
    Quotients(ch);
    MoreOf(ch);
    MoreOf(ch / 64);
  }

  lemma OfFour(ch: Char)
    requires 0xFFFF < ch <= 0x10FFFF
    ensures LeadOf(0xF0 + ch / 262144) == Lead(3, ch / 262144, 0x1_0000)
    ensures More(More(More((0xF0 + ch / 262144) % 0x08, TailOf(ch / 4096)), TailOf(ch / 64)), TailOf(ch)) == ch
  {
    LeadOfFour(ch / 262144);
    Quotients(ch);
    MoreOf(ch);
    MoreOf(ch / 64);
    MoreOf(ch / 4096);
  }

  /** EncodeChar distributes the bits of a character over just the octets that have it as their value. */
  lemma EncodeCharInverse(ch: Char)
    requires IsScalar(ch)
    ensures var e := EncodeChar(ch);
            e != [] && LeadOf(e[0]).Lead? && LeadOf(e[0]).iterations + 1 == |e| && Value(e) == ch && ch >= LeadOf(e[0]).range
  {
    if ch <= 0x7F {
    } else if ch <= 0x7FF {
      OfTwo(ch);
    } else if ch <= 0xFFFF {
      OfThree(ch);
    } else {
      OfFour(ch);
    }
  }

  lemma DecodeOneChar(ch: Char, rest: seq<byte>)
    requires IsScalar(ch)
    ensures Decode(EncodeChar(ch) + rest) == Decode(rest).After([ch])
  {
    var first, s := EncodeChar(ch), EncodeChar(ch) + rest;
    EncodeCharInverse(ch);
    assert s[0] == first[0] && s[..|first|] == first && s[|first|..] == rest;
    ShiftedIn(s, |first| - 1);
  }

  /** The order of a dictionary. */
  predicate Before(s: seq<int>, t: seq<int>) {
    t != [] && (s == [] || s[0] < t[0] || (s[0] == t[0] && Before(s[1..], t[1..])))
  }

  lemma {:induction false} BeforeSame(p: seq<int>, s: seq<int>, t: seq<int>)
    ensures Before(p + s, p + t) <==> Before(s, t)
  {
    if p == [] {
      assert p + s == s && p + t == t;
    } else {
      assert (p + s)[1..] == p[1..] + s && (p + t)[1..] == p[1..] + t;
      BeforeSame(p[1..], s, t);
    }
  }

  /** They differ at some place, and `s` is lower there. */
  predicate Sooner(s: seq<int>, t: seq<int>) {
    s != [] && t != [] && (s[0] < t[0] || (s[0] == t[0] && Sooner(s[1..], t[1..])))
  }

  lemma {:induction false} SoonerAt(s: seq<int>, t: seq<int>, i: nat)
    requires i < |s| && i < |t| && s[i] < t[i] && forall j | 0 <= j < i :: s[j] == t[j]
    ensures Sooner(s, t)
  {
    if i > 0 {
      SoonerAt(s[1..], t[1..], i - 1);
    }
  }

  lemma {:induction false} SoonerIsBefore(s: seq<int>, t: seq<int>, more: seq<int>, more': seq<int>)
    requires Sooner(s, t)
    ensures Before(s + more, t + more')
  {
    if s[0] == t[0] {
      assert (s + more)[1..] == s[1..] + more && (t + more')[1..] == t[1..] + more';
      SoonerIsBefore(s[1..], t[1..], more, more');
    }
  }

  lemma TwoInOrder(a: Char, b: Char)
    requires 0x7F < a < b <= 0x7FF
    ensures Sooner(EncodeChar(a), EncodeChar(b))
  {
    var s, t := EncodeChar(a), EncodeChar(b);
    if a / 64 < b / 64 {
      SoonerAt(s, t, 0);
    } else {
      SoonerAt(s, t, 1);
    }
  }

  lemma ThreeInOrder(a: Char, b: Char)
    requires IsScalar(a) && IsScalar(b) && 0x7FF < a < b <= 0xFFFF
    ensures Sooner(EncodeChar(a), EncodeChar(b))
  {
    var s, t := EncodeChar(a), EncodeChar(b);
    if a / 4096 < b / 4096 {
      SoonerAt(s, t, 0);
    } else if a / 64 < b / 64 {
      Quotients(a);
      Quotients(b);
      SoonerAt(s, t, 1);
    } else {
      SoonerAt(s, t, 2);
    }
  }

  lemma FourInOrder(a: Char, b: Char)
    requires 0xFFFF < a < b <= 0x10FFFF
    ensures Sooner(EncodeChar(a), EncodeChar(b))
  {
    Quotients(a);
    Quotients(b);
    DigitsInOrder(a, b);
    SoonerOfFour(0xF0 + a / 262144, TailOf(a / 4096), TailOf(a / 64), TailOf(a),
                 0xF0 + b / 262144, TailOf(b / 4096), TailOf(b / 64), TailOf(b));
  }

  lemma DigitsInOrder(a: Char, b: Char)
    requires a < b <= 0x10FFFF
    ensures || a / 262144 < b / 262144
            || (a / 262144 == b / 262144
                && (TailOf(a / 4096) < TailOf(b / 4096)
                    || (TailOf(a / 4096) == TailOf(b / 4096)
                        && (TailOf(a / 64) < TailOf(b / 64) || (TailOf(a / 64) == TailOf(b / 64) && TailOf(a) < TailOf(b))))))
  {
    Quotients(a);
    Quotients(b);
  }

  lemma SoonerOfFour(a: byte, b: byte, c: byte, d: byte, a': byte, b': byte, c': byte, d': byte)
    requires a < a' || (a == a' && (b < b' || (b == b' && (c < c' || (c == c' && d < d')))))
    ensures Sooner([a, b, c, d], [a', b', c', d'])
  {
    SoonerAt([a, b, c, d], [a', b', c', d'], if a < a' then 0 else if b < b' then 1 else if c < c' then 2 else 3);
  }

  lemma CharsInOrder(a: Char, b: Char)
    requires IsScalar(a) && IsScalar(b) && a < b
    ensures Sooner(EncodeChar(a), EncodeChar(b))
  {
    var s, t := EncodeChar(a), EncodeChar(b);
    EncodeCharIsUtf8(a);
    EncodeCharIsUtf8(b);
    if 0x7F < a && b <= 0x7FF {
      TwoInOrder(a, b);
    } else if 0x7FF < a && b <= 0xFFFF {
      ThreeInOrder(a, b);
    } else if 0xFFFF < a {
      FourInOrder(a, b);
    } else {
      FirstInOrder(a, b);
    }
  }

  lemma FirstInOrder(a: Char, b: Char)
    requires IsScalar(a) && IsScalar(b) && a < b
    requires a <= 0x7F || (a <= 0x7FF < b) || (a <= 0xFFFF < b)
    ensures EncodeChar(a)[0] < EncodeChar(b)[0]
  {}

  lemma {:induction false} KeepsOrder(s: seq<Char>, t: seq<Char>)
    requires AreScalars(s) && AreScalars(t) && Before(s, t)
    ensures Before(Encode(s), Encode(t))
  {
    EncodeCharIsUtf8(t[0]);
    if s != [] {
      if s[0] < t[0] {
        CharsInOrder(s[0], t[0]);
        SoonerIsBefore(EncodeChar(s[0]), EncodeChar(t[0]), Encode(s[1..]), Encode(t[1..]));
      } else {
        KeepsOrder(s[1..], t[1..]);
        BeforeSame(EncodeChar(s[0]), Encode(s[1..]), Encode(t[1..]));
      }
    }
  }

  lemma {:induction false} BeforeOrAfter(s: seq<int>, t: seq<int>)
    ensures s == t || Before(s, t) || Before(t, s)
    ensures !(Before(s, t) && Before(t, s))
  {
    if s != [] && t != [] {
      BeforeOrAfter(s[1..], t[1..]);
      assert s == [s[0]] + s[1..] && t == [t[0]] + t[1..];
    }
  }

  /** Encodings sort like the characters that they encode, as section 1 of RFC 3629 says. */
  lemma SortsAlike(s: seq<Char>, t: seq<Char>)
    requires AreScalars(s) && AreScalars(t)
    ensures Before(Encode(s), Encode(t)) <==> Before(s, t)
  {
    BeforeOrAfter(s, t);
    BeforeOrAfter(Encode(s), Encode(t));
    if Before(s, t) {
      KeepsOrder(s, t);
    } else if Before(t, s) {
      KeepsOrder(t, s);
    }
  }

  /** Every sequence of scalar values comes back from its encoding. */
  lemma {:induction false} RoundTrip(s: seq<Char>)
    requires AreScalars(s)
    ensures Decode(Encode(s)) == Accepted(s)
  {
    if s != [] {
      RoundTrip(s[1..]);
      DecodeOneChar(s[0], Encode(s[1..]));
      assert [s[0]] + s[1..] == s;
    }
  }

  /** The octets of a well-formed character are those that its value is encoded as. */
  lemma WellFormedCharIsEncoded(s: seq<byte>)
    requires IsUtf8Char(s)
    ensures IsScalar(Value(s)) && EncodeChar(Value(s)) == s
  {
    if |s| == 2 {
      FromTwo(s[0], s[1]);
    } else if |s| == 3 {
      FromThree(s[0], s[1], s[2]);
    } else if |s| == 4 {
      FromFour(s[0], s[1], s[2], s[3]);
    }
  }

  lemma FromTwo(a: byte, b: byte)
    requires IsUtf8Char([a, b])
    ensures EncodeChar(Value([a, b])) == [a, b]
  {
    MoreInverse(a % 0x20, b);
  }

  lemma FirstOfThree(a: byte, b: byte, c: byte)
    requires IsUtf8Char([a, b, c])
    ensures a == 0xE0 + a % 0x10 && 0x20 <= More(a % 0x10, b) <= 0x3FF && IsTail(b) && IsTail(c)
    ensures !(0x360 <= More(a % 0x10, b) <= 0x37F)
  {
    var s: seq<byte> := [a, b, c];
    assert s[0] == a && s[1] == b && s[2] == c;
  }

  lemma FromThree(a: byte, b: byte, c: byte)
    requires IsUtf8Char([a, b, c])
    ensures IsScalar(Value([a, b, c])) && EncodeChar(Value([a, b, c])) == [a, b, c]
  {
    FirstOfThree(a, b, c);
    var u := More(a % 0x10, b);
    MoreInverse(a % 0x10, b);
    MoreInverse(u, c);
    Quotients(More(u, c));
    assert Value([a, b, c]) == More(u, c);
  }

  lemma FirstOfFour(a: byte, b: byte, c: byte, d: byte)
    requires IsUtf8Char([a, b, c, d])
    ensures a == 0xF0 + a % 0x08 && 0x10 <= More(a % 0x08, b) <= 0x10F && IsTail(b) && IsTail(c) && IsTail(d)
  {
    var s: seq<byte> := [a, b, c, d];
    assert s[0] == a && s[1] == b && s[2] == c && s[3] == d;
  }

  lemma FromFour(a: byte, b: byte, c: byte, d: byte)
    requires IsUtf8Char([a, b, c, d])
    ensures IsScalar(Value([a, b, c, d])) && EncodeChar(Value([a, b, c, d])) == [a, b, c, d]
  {
    FirstOfFour(a, b, c, d);
    var u := More(a % 0x08, b);
    var v := More(u, c);
    var ch := More(v, d);
    MoreInverse(a % 0x08, b);
    MoreInverse(u, c);
    MoreInverse(v, d);
    Quotients(ch);
    assert Value([a, b, c, d]) == ch;
  }

  /** Every well-formed string is accepted, and is the encoding of the scalar values that it is decoded to:
      between well-formed strings and sequences of scalar values, the two functions are inverses. */
  lemma {:induction false} WellFormedIsAccepted(s: seq<byte>)
    requires IsUtf8(s)
    ensures Decode(s).Accepted? && AreScalars(Decode(s).chars) && Encode(Decode(s).chars) == s
    decreases |s|
  {
    if s != [] {
      var n := LengthOf(s[0]);
      var first, rest := s[..n], s[n..];
      assert s == first + rest;
      WellFormedCharIsEncoded(first);
      WellFormedIsAccepted(rest);
      DecodeOneChar(Value(first), rest);
      var chars := Decode(rest).chars;
      assert ([Value(first)] + chars)[1..] == chars;
    }
  }

  /** FromUTF8 does not check everything, but together with ToUTF8 it tells well-formed strings from all
      others: just they are accepted and come back. */
  lemma ComesBackIffWellFormed(s: seq<byte>)
    ensures IsUtf8(s) <==> Decode(s).Accepted? && AreScalars(Decode(s).chars) && Encode(Decode(s).chars) == s
  {
    if IsUtf8(s) {
      WellFormedIsAccepted(s);
    } else if Decode(s).Accepted? && AreScalars(Decode(s).chars) {
      EncodeIsUtf8(Decode(s).chars);
    }
  }

  /** A string that is not well-formed and that FromUTF8 accepts: it takes any octet for a tail. */
  lemma AcceptsMalformed()
    ensures !IsUtf8([0xC2, 0x41]) && Decode([0xC2, 0x41]) == Accepted([0x81])
  {
    var s: seq<byte>, t: seq<byte> := [0xC2, 0x41], [0x41];
    assert s[1..] == t && s[2..] == [] && s[..2] == s;
    ShiftOne(2, t, 1);
  }

  /** What FromUTF8 takes for a character: a lead octet with as many octets of any kind as it calls for, unless
      the form is overlong. */
  predicate IsLooseChar(s: seq<byte>) {
    || (|s| == 1 && s[0] <= 0x7F)
    || (|s| == 2 && 0xC2 <= s[0] <= 0xDF)
    || (|s| == 3 && 0xE0 <= s[0] <= 0xEF && (s[0] == 0xE0 ==> s[1] % 64 >= 0x20))
    || (|s| == 4 && 0xF0 <= s[0] <= 0xF7 && (s[0] == 0xF0 ==> s[1] % 64 >= 0x10))
  }

  predicate IsLoose(s: seq<byte>)
    decreases |s|
  {
    || s == []
    || (|s| >= LengthOf(s[0]) && IsLooseChar(s[..LengthOf(s[0])]) && IsLoose(s[LengthOf(s[0])..]))
  }

  function Values(s: seq<byte>): seq<Char>
    requires IsLoose(s)
    decreases |s|
  {
    if s == [] then [] else [Value(s[..LengthOf(s[0])])] + Values(s[LengthOf(s[0])..])
  }

  /** What makes such a character ill-formed: an octet that is no tail, a surrogate, or a number too large. */
  predicate IsFaulty(s: seq<byte>) {
    || (exists i :: 1 <= i < |s| && !IsTail(s[i]))
    || (|s| == 3 && s[0] == 0xED && s[1] >= 0xA0)
    || (|s| == 4 && (s[0] > 0xF4 || (s[0] == 0xF4 && s[1] >= 0x90)))
  }

  predicate HasFault(s: seq<byte>)
    decreases |s|
  {
    && s != [] && |s| >= LengthOf(s[0])
    && (IsFaulty(s[..LengthOf(s[0])]) || HasFault(s[LengthOf(s[0])..]))
  }

  lemma LooseCharIff(s: seq<byte>)
    requires s != [] && LeadOf(s[0]).Lead? && |s| == LeadOf(s[0]).iterations + 1
    ensures Value(s) >= LeadOf(s[0]).range <==> IsLooseChar(s)
  {}

  lemma LooseLead(s: seq<byte>)
    requires s != []
    ensures LeadOf(s[0]).Lead? ==> LeadOf(s[0]).iterations + 1 == LengthOf(s[0])
    ensures LeadOf(s[0]).NotALead? ==> !IsLooseChar(s[..if LengthOf(s[0]) <= |s| then LengthOf(s[0]) else |s|])
  {}

  /** The strings that FromUTF8 accepts, octet by octet, and the characters that they become. */
  lemma {:induction false} AcceptedIff(s: seq<byte>)
    ensures Decode(s).Accepted? <==> IsLoose(s)
    ensures IsLoose(s) ==> Decode(s) == Accepted(Values(s))
    decreases |s|
  {
    if s != [] {
      var n := LengthOf(s[0]);
      LooseLead(s);
      if LeadOf(s[0]).Lead? && n <= |s| {
        AcceptedIff(s[n..]);
        ShiftedIn(s, n - 1);
        LooseCharIff(s[..n]);
      }
    }
  }

  /** The characters as far as they can be accepted. */
  function FirstValues(s: seq<byte>): seq<Char>
    decreases |s|
  {
    if s == [] || |s| < LengthOf(s[0]) || !IsLooseChar(s[..LengthOf(s[0])]) then []
    else [Value(s[..LengthOf(s[0])])] + FirstValues(s[LengthOf(s[0])..])
  }

  /** Where FromUTF8 gives up, all characters before that have been decoded. */
  lemma {:induction false} RejectedIs(s: seq<byte>)
    ensures Decode(s).Rejected? ==> Decode(s).chars == FirstValues(s)
    decreases |s|
  {
    if s != [] {
      var n := LengthOf(s[0]);
      LooseLead(s);
      if LeadOf(s[0]).Lead? && n <= |s| {
        RejectedIs(s[n..]);
        ShiftedIn(s, n - 1);
        LooseCharIff(s[..n]);
      }
    }
  }

  lemma WellFormedCharIff(s: seq<byte>)
    ensures IsUtf8Char(s) <==> IsLooseChar(s) && !IsFaulty(s)
  {
    if |s| == 2 {
      assert IsFaulty(s) <==> !IsTail(s[1]);
    } else if |s| == 3 {
      assert IsTail(s[1]) && IsTail(s[2]) <==> forall i | 1 <= i < |s| :: IsTail(s[i]);
    } else if |s| == 4 {
      assert IsTail(s[1]) && IsTail(s[2]) && IsTail(s[3]) <==> forall i | 1 <= i < |s| :: IsTail(s[i]);
    }
  }

  /** What FromUTF8 does not look at: it accepts an ill-formed string exactly if the only faults are octets that
      are no tails, surrogates, and numbers above 10FFFF. */
  lemma {:induction false} WellFormedIff(s: seq<byte>)
    ensures IsUtf8(s) <==> IsLoose(s) && !HasFault(s)
    decreases |s|
  {
    if s != [] && |s| >= LengthOf(s[0]) {
      WellFormedCharIff(s[..LengthOf(s[0])]);
      WellFormedIff(s[LengthOf(s[0])..]);
    }
  }

  lemma AcceptsIllFormedIff(s: seq<byte>)
    ensures Decode(s).Accepted? && !IsUtf8(s) <==> IsLoose(s) && HasFault(s)
  {
    AcceptedIff(s);
    WellFormedIff(s);
  }

  /** One character at the end of the source that lacks its last octet, and whose octets so far would not
      belong to an overlong form. */
  predicate LacksOneOctet(s: seq<byte>) {
    || (|s| == 1 && 0xC2 <= s[0] <= 0xDF)
    || (|s| == 2 && 0xE0 <= s[0] <= 0xEF && (s[0] == 0xE0 ==> s[1] % 64 >= 0x20))
    || (|s| == 3 && 0xF0 <= s[0] <= 0xF7 && (s[0] == 0xF0 ==> s[1] % 64 >= 0x10))
  }

  lemma TruncatedValue(s: seq<byte>)
    requires s != [] && LeadOf(s[0]).Lead? && |s| <= LeadOf(s[0]).iterations
    ensures ShiftIn(LeadOf(s[0]).bits, s[1..], LeadOf(s[0]).iterations) >= LeadOf(s[0]).range <==> LacksOneOctet(s)
  {
    var u, t, n := LeadOf(s[0]).bits, s[1..], LeadOf(s[0]).iterations;
    if |s| >= 2 {
      ShiftOne(u, t, n);
    }
    if |s| >= 3 {
      ShiftOne(More(u, t[0]), t[1..], n - 1);
    }
  }

  lemma LeadOfLast(s: seq<byte>)
    requires LacksOneOctet(s)
    ensures LeadOf(s[0]).Lead? && LeadOf(s[0]).iterations == |s|
  {}

  /** Too few octets for a first character are not accepted. */
  lemma PrefixTooShort(s: seq<byte>, k: nat)
    requires 0 < k <= |s| && (LeadOf(s[0]).Lead? ==> k <= LeadOf(s[0]).iterations)
    ensures !IsLoose(s[..k])
  {
    LooseLead(s[..k]);
  }

  /** A whole first character is accepted as a part of any longer prefix. */
  lemma LoosePrefix(s: seq<byte>, n: nat, k: nat)
    requires s != [] && n == LengthOf(s[0]) && n + k <= |s|
    ensures IsLoose(s[..n + k]) <==> IsLooseChar(s[..n]) && IsLoose(s[n..][..k])
  {
    var p := s[..n + k];
    assert p[0] == s[0] && p[..n] == s[..n] && p[n..] == s[n..][..k];
  }

  ghost predicate EndsLackingOneOctet(s: seq<byte>) {
    exists k: nat :: k <= |s| && IsLoose(s[..k]) && LacksOneOctet(s[k..])
  }

  lemma OverrunAtOnce(s: seq<byte>)
    requires s != [] && LeadOf(s[0]).Lead? ==> LeadOf(s[0]).iterations >= |s|
    ensures Decode(s).Overrun? <==> EndsLackingOneOctet(s)
  {
    assert s[..0] == [] && s[0..] == s;
    if s != [] && LeadOf(s[0]).Lead? {
      TruncatedValue(s);
    }
    if LacksOneOctet(s) {
      LeadOfLast(s);
    }
    forall k: nat | k <= |s| && IsLoose(s[..k]) && LacksOneOctet(s[k..]) ensures k == 0 {
      if k > 0 {
        PrefixTooShort(s, k);
      }
    }
  }

  /** FromUTF8 runs beyond the end exactly when, after characters that it accepts, one lacks just its last
      octet and is not overlong. */
  lemma {:induction false} OverrunIff(s: seq<byte>)
    ensures Decode(s).Overrun? <==> EndsLackingOneOctet(s)
    decreases |s|
  {
    if s == [] || LeadOf(s[0]).NotALead? || LeadOf(s[0]).iterations >= |s| {
      OverrunAtOnce(s);
    } else {
      var n := LeadOf(s[0]).iterations + 1;
      ShiftedIn(s, n - 1);
      LooseCharIff(s[..n]);
      OverrunIff(s[n..]);
      OverrunOfRest(s, n);
    }
  }

  lemma OverrunOfRest(s: seq<byte>, n: nat)
    requires s != [] && LeadOf(s[0]).Lead? && n == LeadOf(s[0]).iterations + 1 <= |s|
    ensures EndsLackingOneOctet(s) <==> IsLooseChar(s[..n]) && EndsLackingOneOctet(s[n..])
  {
    var rest := s[n..];
    if IsLooseChar(s[..n]) && EndsLackingOneOctet(rest) {
      var k: nat :| k <= |rest| && IsLoose(rest[..k]) && LacksOneOctet(rest[k..]);
      LackingBehind(s, n, k);
    }
    if EndsLackingOneOctet(s) {
      var k: nat :| k <= |s| && IsLoose(s[..k]) && LacksOneOctet(s[k..]);
      LackingBeyond(s, n, k);
    }
  }

  lemma LackingBehind(s: seq<byte>, n: nat, k: nat)
    requires s != [] && LeadOf(s[0]).Lead? && n == LeadOf(s[0]).iterations + 1 && n + k <= |s|
    requires IsLooseChar(s[..n])
    requires IsLoose(s[n..][..k]) && LacksOneOctet(s[n..][k..])
    ensures EndsLackingOneOctet(s)
  {
    LooseLead(s);
    LoosePrefix(s, n, k);
    assert s[n + k..] == s[n..][k..];
  }

  lemma LackingBeyond(s: seq<byte>, n: nat, k: nat)
    requires s != [] && LeadOf(s[0]).Lead? && n == LeadOf(s[0]).iterations + 1 <= |s| && k <= |s|
    requires IsLoose(s[..k]) && LacksOneOctet(s[k..])
    ensures n <= k && IsLooseChar(s[..n]) && EndsLackingOneOctet(s[n..])
  {
    LeadOfLast(s[k..]);
    assert s[0..] == s;
    if k > 0 {
      PrefixReaches(s, n, k);
      LooseLead(s);
      LoosePrefix(s, n, k - n);
      assert s[k..] == s[n..][k - n..];
    }
  }

  lemma PrefixReaches(s: seq<byte>, n: nat, k: nat)
    requires 0 < k <= |s| && LeadOf(s[0]).Lead? && n == LeadOf(s[0]).iterations + 1
    requires IsLoose(s[..k])
    ensures n <= k
  {
    if k < n {
      PrefixTooShort(s, k);
    }
  }
}
