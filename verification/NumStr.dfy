/** Numbers as text, in fixed buffers, and text as numbers. */
module NumStr {
  import opened Collections
  import opened Powers
  import opened Wrappers
  import Bytes

  const DIGITS: string := "0123456789ABCDEF"

  type Base = b: nat | 2 <= b <= 16 witness 10

  function Div(u: nat, base: Base): (q: nat)
    ensures (u > 0 ==> q < u) && (q == 0 <==> u < base)
  {
    Division(u, base);
    u / base
  }

  function Mod(u: nat, base: Base): (r: nat)
    ensures r < base
  {
    u % base
  }

  lemma Division(u: nat, base: Base)
    ensures u / base >= 0 && base * (u / base) + u % base == u
    ensures u > 0 ==> u / base < u
    ensures u / base == 0 <==> u < base
  {
    var q := u / base;
    assert base * q + u % base == u;
    if q > 0 {
      TimesAtLeast(q, 2, base);
    }
  }

  /** The digits of `u`, the highest first, without leading zeros. */
  function Digits(u: nat, base: Base): (s: string)
    ensures s != []
  {
    (if u < base then [] else Digits(Div(u, base), base)) + [DIGITS[Mod(u, base)]]
  }

  /** Above nine, a digit is a capital letter. */
  lemma OneDigit(d: nat, base: Base)
    requires d < base
    ensures Digits(d, base) == [if d < 10 then '0' + d as char else 'A' + (d - 10) as char]
  {
    assert Mod(d, base) == d && [] + [DIGITS[d]] == [DIGITS[d]];
  }

  function Zeros(n: nat): (z: string)
    ensures |z| == n
  {
    if n == 0 then "" else "0" + Zeros(n - 1)
  }

  /** With zeros in front, to make up at least `n` digits. */
  function PadTo(s: string, n: nat): (p: string)
    ensures |p| == if |s| < n then n else |s|
  {
    if |s| < n then Zeros(n - |s|) + s else s
  }

  /** The shared part of UToStr and IToStr: digits, written from the end of `res` backwards. `at` is where
      they start; nothing if there is no room. */
  method WriteDigits(res: array<char>, u: nat, base: Base) returns (at: Option<nat>)
    requires res.Length > 0
    modifies res
    ensures at.Some? <==> |Digits(u, base)| < res.Length
    ensures at.Some? ==> at.value < res.Length && res[at.value..res.Length - 1] == Digits(u, base)
  {
    var idx, left := res.Length - 1, u;
    while true
      invariant 0 <= idx < res.Length
      invariant Digits(u, base) == Digits(left, base) + res[idx..res.Length - 1]
      decreases left
    {
      if idx == 0 {
        return None;
      }
      idx := idx - 1;
      DigitsNext(left, base, res[idx + 1..res.Length - 1]);
      WriteDigit(res, idx, DIGITS[Mod(left, base)]);
      if Div(left, base) == 0 {
        break;
      }
      left := Div(left, base);
    }
    at := Some(idx);
  }

  method WriteDigit(res: array<char>, idx: nat, ch: char)
    requires idx < res.Length - 1
    modifies res
    ensures res[idx..res.Length - 1] == [ch] + old(res[idx + 1..res.Length - 1])
  {
    res[idx] := ch;
  }

  lemma DigitsNext(u: nat, base: Base, done: string)
    ensures Div(u, base) == 0 ==> Digits(u, base) + done == [DIGITS[Mod(u, base)]] + done && |Digits(u, base)| == 1
    ensures Div(u, base) > 0 ==> Digits(u, base) + done == Digits(Div(u, base), base) + ([DIGITS[Mod(u, base)]] + done)
  {
    Regroup3(Digits(Div(u, base), base), [DIGITS[Mod(u, base)]], done);
  }

  /** Zeros in front of the digits, up to `minIdx`. */
  method WriteZeros(res: array<char>, at: nat, minIdx: nat, ghost digits: string) returns (idx: nat)
    requires at <= res.Length - 1 && minIdx <= res.Length - 1 && res[at..res.Length - 1] == digits
    modifies res
    ensures idx <= res.Length - 1 && idx <= at && res[idx..res.Length - 1] == PadTo(digits, res.Length - 1 - minIdx)
  {
    idx := at;
    ghost var zeros := "";
    assert zeros + digits == digits;
    while idx > minIdx
      invariant idx <= at && (idx < minIdx ==> idx == at)
      invariant zeros == Zeros(at - idx) && res[idx..res.Length - 1] == zeros + digits
    {
      Regroup3("0", zeros, digits);
      idx := idx - 1;
      res[idx] := '0';
      assert res[idx..res.Length - 1] == "0" + (zeros + digits);
      zeros := "0" + zeros;
    }
  }

  /** Both: at least so many digits that they start at `minIdx`. */
  method WritePadded(res: array<char>, u: nat, base: Base, minIdx: nat) returns (at: Option<nat>)
    requires minIdx < res.Length
    modifies res
    ensures at.Some? <==> |Digits(u, base)| < res.Length
    ensures at.Some? ==>
              && at.value < res.Length
              && res[at.value..res.Length - 1] == PadTo(Digits(u, base), res.Length - 1 - minIdx)
  {
    at := WriteDigits(res, u, base);
    if at.Some? {
      var idx := WriteZeros(res, at.value, minIdx, Digits(u, base));
      at := Some(idx);
    }
  }

  method WriteMinus(res: array<char>, idx: nat, ghost digits: string) returns (at: Option<nat>)
    requires idx < res.Length && res[idx..res.Length - 1] == digits
    modifies res
    ensures at.Some? <==> idx > 0
    ensures at.Some? ==> at.value < res.Length && res[at.value..res.Length - 1] == "-" + digits
  {
    if idx == 0 {
      return None;
    }
    res[idx - 1] := '-';
    assert res[idx - 1..res.Length - 1] == "-" + digits;
    at := Some(idx - 1);
  }

  /** Unsigned numbers. The buffer has room for 19 digits; where they are more, the code would write in
      front of it. */
  method UToStr(u: nat, base: Base, minDigits: nat) returns (s: Option<string>)
    requires minDigits <= 19
    ensures s.Some? <==> u < Pow(base, 19)
    ensures s.Some? ==> s.value == PadTo(Digits(u, base), minDigits)
  {
    DigitCount(u, base, 19);
    var res := new char[20];
    var at := WritePadded(res, u, base, 19 - minDigits);
    s := if at.Some? then Some(res[at.value..19]) else None;
  }

  /** Signed numbers of a type with minimum `min`. The least number has no negative; and the buffer has room
      for 20 characters. */
  method IToStr(num: int, min: int, base: Base, minDigits: nat) returns (s: Option<string>)
    requires min <= num && minDigits <= 19
    ensures s.Some? <==> if num >= 0 then num < Pow(base, 20) else num > min && -num < Pow(base, 19)
    ensures s.Some? ==> s.value == SignedDigits(num, base, minDigits)
  {
    var res := new char[21];
    if num < 0 && num == min {
      return None;
    }
    var u: nat := if num >= 0 then num else -num;
    DigitCount(u, base, 19);
    DigitCount(u, base, 20);
    var at := WritePadded(res, u, base, 20 - minDigits);
    if num < 0 && at.Some? {
      at := WriteMinus(res, at.value, PadTo(Digits(u, base), minDigits));
    }
    s := if at.Some? then Some(res[at.value..20]) else None;
  }

  function SignedDigits(num: int, base: Base, minDigits: nat): string {
    if num >= 0 then PadTo(Digits(num, base), minDigits) else "-" + PadTo(Digits(-num, base), minDigits)
  }

  /** `n` digits are enough for just the numbers below base^n. */
  lemma {:induction false} DigitCount(u: nat, base: Base, n: nat)
    requires n > 0
    ensures |Digits(u, base)| <= n <==> u < Pow(base, n)
    decreases n
  {
    if n == 1 {
      assert Pow(base, 1) == base * Pow(base, 0) == base;
    } else {
      Division(u, base);
      BelowTimes(base, Div(u, base), Mod(u, base), Pow(base, n - 1));
      assert u == base * Div(u, base) + Mod(u, base) && Pow(base, n) == base * Pow(base, n - 1);
      if u >= base {
        DigitCount(Div(u, base), base, n - 1);
      }
    }
  }

  lemma BelowTimes(base: Base, q: nat, r: nat, p: nat)
    requires r < base
    ensures base * q + r < base * p <==> q < p
  {
    if q < p {
      TimesAtLeast(base, q + 1, p);
      assert base * (q + 1) == base * q + base;
    } else {
      TimesAtLeast(base, p, q);
    }
  }

  /** The length of a C string: `s` as far as the first NUL, of which there is one behind its end. */
  method StrLen(s: string) returns (i: nat)
    ensures i == |CString(s)|
  {
    i := 0;
    while i < |s| && s[i] != '\0'
      invariant i <= |s| && |CString(s)| == i + |CString(s[i..])|
    {
      i := i + 1;
    }
  }

  function CString(s: string): (c: string)
    ensures c <= s && '\0' !in c
    ensures c == s || s[|c|] == '\0'
  {
    if s == "" || s[0] == '\0' then "" else [s[0]] + CString(s[1..])
  }

  function ToUpper(ch: char): char {
    if 'a' <= ch <= 'z' then ch - 'a' + 'A' else ch
  }

  predicate IsDigit(ch: char, base: int) {
    || (base == 10 && '0' <= ch <= '9')
    || (base == 16 && ('0' <= ch <= '9' || 'A' <= ToUpper(ch) <= 'F'))
  }

  function DigitValue(ch: char): (d: nat)
    requires IsDigit(ch, 16)
    ensures d < 16 && ('0' <= ch <= '9' ==> d < 10)
  {
    if '0' <= ch <= '9' then (ch - '0') as int else (ToUpper(ch) - 'A') as int + 10
  }

  /** The unsigned types that ToUint is used with. */
  datatype Width = Bits32 | Bits64

  function Size(w: Width): (n: nat)
    ensures n > 0
  {
    if w.Bits32? then 0x1_0000_0000 else 0x1_0000_0000_0000_0000
  }

  function Wrap(v: nat, w: Width): (r: nat)
    ensures v < Size(w) ==> r == v
  {
    v % Size(w)
  }

  function Times(base: nat, v: nat): nat {
    if base == 10 then 10 * v else 16 * v
  }

  /** One more digit behind `acc`. */
  function Push(acc: nat, base: nat, d: nat, w: Width): nat {
    Wrap(Wrap(Times(base, acc), w) + d, w)
  }

  /** What ToUint makes of `s`, having found a digit or not, with `acc` so far. */
  function Read(s: string, base: nat, found: bool, acc: nat, w: Width): nat
  {
    if s == "" || s[0] == '\0' then acc
    else if !found && !IsDigit(s[0], base) then Read(s[1..], base, false, acc, w)
    else if IsDigit(s[0], base) then Read(s[1..], base, true, Push(acc, base, DigitValue(s[0]), w), w)
    else if base == 16 then Read(s[1..], base, true, acc, w)
    else acc
  }

  method PushDigit(acc: nat, base: nat, d: nat, w: Width) returns (result: nat)
    requires base == 10 || base == 16
    ensures result == Push(acc, base, d, w)
  {
    result := Wrap(acc * base, w);
    result := Wrap(result + d, w);
  }

  /** What ToUint does with a character once it has found a digit; false at the end of the number. */
  method Accumulate(acc: nat, ch: char, base: nat, w: Width) returns (ok: bool, result: nat)
    ensures ok <==> IsDigit(ch, base) || base == 16
    ensures result == if IsDigit(ch, base) then Push(acc, base, DigitValue(ch), w) else acc
  {
    ok, result := true, acc;
    if base == 10 && '0' <= ch <= '9' {
      result := PushDigit(acc, base, (ch - '0') as int, w);
    } else if base == 16 {
      if '0' <= ch <= '9' {
        result := PushDigit(acc, base, (ch - '0') as int, w);
      } else if 'A' <= ToUpper(ch) <= 'F' {
        result := PushDigit(acc, base, (ToUpper(ch) - 'A') as int + 10, w);
      }
    } else {
      ok := false;
    }
  }

  lemma CharAt(s: string, i: nat)
    requires i < |CString(s)|
    ensures i < |s| && s[i] != '\0'
  {
    assert CString(s)[i] == s[i];
  }

  /** The character at `i`, and what is behind it. */
  lemma Cut(s: string, i: nat)
    requires i < |s|
    ensures s[i..] != "" && s[i..][0] == s[i] && s[i..][1..] == s[i + 1..]
  {}

  lemma ReadNext(s: string, rest: string, base: nat, found: bool, acc: nat, w: Width)
    requires s != "" && s[0] != '\0' && rest == s[1..]
    ensures Read(s, base, found, acc, w) ==
              if IsDigit(s[0], base) then Read(rest, base, true, Push(acc, base, DigitValue(s[0]), w), w)
              else if !found then Read(rest, base, false, acc, w)
              else if base == 16 then Read(rest, base, true, acc, w)
              else acc
  {}

  lemma ReadStep(s: string, i: nat, base: nat, found: bool, acc: nat, w: Width)
    requires i < |s| && s[i] != '\0'
    ensures Read(s[i..], base, found, acc, w) ==
              if IsDigit(s[i], base) then Read(s[i + 1..], base, true, Push(acc, base, DigitValue(s[i]), w), w)
              else if !found then Read(s[i + 1..], base, false, acc, w)
              else if base == 16 then Read(s[i + 1..], base, true, acc, w)
              else acc
  {
    Cut(s, i);
    ReadNext(s[i..], s[i + 1..], base, found, acc, w);
  }

  lemma OnlyDigitsRead(s: string, base: nat, w: Width)
    ensures (base == 10 || base == 16) && s != "" && AllDigits(s, base) ==>
              Read(s, base, false, 0, w) == Wrap(ValueOf(s, base), w)
  {
    if (base == 10 || base == 16) && s != "" && AllDigits(s, base) {
      ReadDigits(s, "", base, w);
      assert s + "" == s;
    }
  }

  method ToUint(str: string, base: nat, w: Width) returns (result: nat)
    ensures result == Read(str, base, false, 0, w)
    ensures (base == 10 || base == 16) && str != "" && AllDigits(str, base) ==> result == Wrap(ValueOf(str, base), w)
  {
    OnlyDigitsRead(str, base, w);
    var foundFirstDigit := false;
    result := 0;
    var i := 0;
    var len := StrLen(str);
    while i < len
      invariant 0 <= i <= len == |CString(str)|
      invariant Read(str, base, false, 0, w) == Read(str[i..], base, foundFirstDigit, result, w)
    {
      CharAt(str, i);
      ReadStep(str, i, base, foundFirstDigit, result, w);
      if !foundFirstDigit {
        if IsDigit(str[i], base) {
          foundFirstDigit := true;
        }
      }
      if foundFirstDigit {
        var ok;
        ok, result := Accumulate(result, str[i], base, w);
        if !ok {
          break;
        }
      }
      i := i + 1;
      len := StrLen(str);
    }
  }

  predicate AllDigits(s: string, base: nat) {
    forall i | 0 <= i < |s| :: IsDigit(s[i], base)
  }

  predicate NoDigits(s: string, base: nat) {
    forall i | 0 <= i < |s| :: !IsDigit(s[i], base)
  }

  /** The number that digits stand for. */
  function ValueOf(s: string, base: nat): (v: nat)
    requires (base == 10 || base == 16) && AllDigits(s, base)
  {
    if s == "" then 0 else Times(base, ValueOf(s[..|s| - 1], base)) + DigitValue(s[|s| - 1])
  }

  lemma WrapOfNext(v: nat, base: nat, d: nat, w: Width)
    ensures Push(Wrap(v, w), base, d, w) == Wrap(Times(base, v) + d, w)
  {
    ModOfNext(v, if base == 10 then 10 else 16, d, Size(w));
  }

  lemma ModOfNext(v: nat, k: nat, d: nat, m: nat)
    requires m > 0
    ensures ((k * (v % m)) % m + d) % m == (k * v + d) % m
  {
    var q, r := v / m, v % m;
    var q1, r1 := k * r / m, k * r % m;
    var q2, r2 := (r1 + d) / m, (r1 + d) % m;
    assert k * v == k * (m * q + r) == m * (k * q) + k * r;
    assert k * v + d == m * (k * q) + m * q1 + m * q2 + r2;
    assert m * (k * q) + m * q1 + m * q2 == m * (k * q + q1 + q2);
    Bytes.ModUnique(k * v + d, m, k * q + q1 + q2, r2);
  }

  lemma ReadOne(ch: char, rest: string, base: nat, found: bool, acc: nat, w: Width)
    requires IsDigit(ch, base)
    ensures Read([ch] + rest, base, found, acc, w) == Read(rest, base, true, Push(acc, base, DigitValue(ch), w), w)
  {
    assert ([ch] + rest)[1..] == rest;
  }

  /** From the first digit on, a run of digits is read as the number that it stands for. */
  lemma {:induction false} ReadDigits(s: string, rest: string, base: nat, w: Width)
    requires (base == 10 || base == 16) && s != "" && AllDigits(s, base)
    ensures Read(s + rest, base, false, 0, w) == Read(rest, base, true, Wrap(ValueOf(s, base), w), w)
  {
    var init, last := s[..|s| - 1], s[|s| - 1];
    var tail := [last] + rest;
    assert s + rest == init + tail;
    WrapOfNext(ValueOf(init, base), base, DigitValue(last), w);
    if init != "" {
      ReadDigits(init, tail, base, w);
      ReadOne(last, rest, base, true, Wrap(ValueOf(init, base), w), w);
    } else {
      assert init + tail == tail;
      ReadOne(last, rest, base, false, 0, w);
    }
  }

  lemma {:induction false} SkipPrefix(p: string, s: string, base: nat, w: Width)
    requires NoDigits(p, base) && '\0' !in p
    ensures Read(p + s, base, false, 0, w) == Read(s, base, false, 0, w)
  {
    if p == "" {
      assert p + s == s;
    } else {
      assert (p + s)[1..] == p[1..] + s;
      SkipPrefix(p[1..], s, base, w);
    }
  }

  /** The hexadecimal digits of a text, and the decimal ones from its first one on as far as they go. */
  function HexDigits(s: string): (d: string)
    ensures AllDigits(d, 16)
  {
    if s == "" then "" else (if IsDigit(s[0], 16) then [s[0]] else "") + HexDigits(s[1..])
  }

  function LeadingRun(s: string): (d: string)
    ensures AllDigits(d, 10) && d <= s && (|d| < |s| ==> !IsDigit(s[|d|], 10))
  {
    if s == "" || !IsDigit(s[0], 10) then "" else [s[0]] + LeadingRun(s[1..])
  }

  function FirstRun(s: string): (d: string)
    ensures AllDigits(d, 10)
  {
    if s == "" || IsDigit(s[0], 10) then LeadingRun(s) else FirstRun(s[1..])
  }

  /** What `acc` becomes with more digits behind it. */
  function ValueFrom(acc: nat, s: string, base: nat): (v: nat)
    requires (base == 10 || base == 16) && AllDigits(s, base)
    ensures v >= acc
    decreases |s|
  {
    if s == "" then acc else ValueFrom(Times(base, acc) + DigitValue(s[0]), s[1..], base)
  }

  lemma {:induction false} ValueFromNext(acc: nat, s: string, ch: char, base: nat)
    requires (base == 10 || base == 16) && AllDigits(s, base) && IsDigit(ch, base)
    ensures AllDigits(s + [ch], base)
    ensures ValueFrom(acc, s + [ch], base) == Times(base, ValueFrom(acc, s, base)) + DigitValue(ch)
    decreases |s|
  {
    if s == "" {
      assert s + [ch] == [ch] && [ch][1..] == "";
    } else {
      assert (s + [ch])[1..] == s[1..] + [ch];
      ValueFromNext(Times(base, acc) + DigitValue(s[0]), s[1..], ch, base);
    }
  }

  lemma {:induction false} ValueFromIs(s: string, base: nat)
    requires (base == 10 || base == 16) && AllDigits(s, base)
    ensures ValueFrom(0, s, base) == ValueOf(s, base)
  {
    if s != "" {
      var init, last := s[..|s| - 1], s[|s| - 1];
      ValueFromIs(init, base);
      ValueFromNext(0, init, last, base);
      assert s == init + [last];
    }
  }

  lemma {:induction false} HexRead(s: string, v: nat, found: bool, w: Width)
    requires !found ==> v == 0
    ensures Read(s, 16, found, Wrap(v, w), w) == Wrap(ValueFrom(v, HexDigits(CString(s)), 16), w)
    decreases |s|
  {
    if s != "" && s[0] != '\0' {
      HexDigitsNext(s, v);
      if IsDigit(s[0], 16) {
        WrapOfNext(v, 16, DigitValue(s[0]), w);
        HexRead(s[1..], Times(16, v) + DigitValue(s[0]), true, w);
      } else {
        HexRead(s[1..], v, found, w);
      }
    }
  }

  lemma HexDigitsNext(s: string, v: nat)
    requires s != "" && s[0] != '\0'
    ensures ValueFrom(v, HexDigits(CString(s)), 16)
            == ValueFrom(if IsDigit(s[0], 16) then Times(16, v) + DigitValue(s[0]) else v, HexDigits(CString(s[1..])), 16)
  {
    var rest := HexDigits(CString(s[1..]));
    assert CString(s)[1..] == CString(s[1..]) && CString(s)[0] == s[0];
    assert ([s[0]] + rest)[1..] == rest && "" + rest == rest;
  }

  /** In base 16, whatever text is read as the number of all its digits, in the width of the type; in base 10, as
      that of its first run of digits. */
  lemma ReadMeans(s: string, w: Width)
    ensures var m := if w.Bits32? then 0x1_0000_0000 else 0x1_0000_0000_0000_0000;
            && Read(s, 16, false, 0, w) == ValueOf(HexDigits(CString(s)), 16) % m
            && Read(s, 10, false, 0, w) == ValueOf(FirstRun(CString(s)), 10) % m
  {
    HexRead(s, 0, false, w);
    ValueFromIs(HexDigits(CString(s)), 16);
    DecimalRead(s, w);
  }

  lemma {:induction false} DecimalRead(s: string, w: Width)
    ensures Read(s, 10, false, 0, w) == Wrap(ValueOf(FirstRun(CString(s)), 10), w)
    decreases |s|
  {
    if s != "" && s[0] != '\0' {
      assert CString(s)[1..] == CString(s[1..]) && CString(s)[0] == s[0];
      if IsDigit(s[0], 10) {
        LeadingRunOf(s);
        RunRead(s, LeadingRun(s), w);
      } else {
        DecimalRead(s[1..], w);
      }
    }
  }

  lemma RunRead(s: string, run: string, w: Width)
    requires run == LeadingRun(s) && run != ""
    ensures Read(s, 10, false, 0, w) == Wrap(ValueOf(run, 10), w)
  {
    var rest := s[|run|..];
    assert s == run + rest;
    ReadDigits(run, rest, 10, w);
    ReadEnd(rest, 10, Wrap(ValueOf(run, 10), w), w);
  }

  lemma {:induction false} LeadingRunOf(s: string)
    ensures LeadingRun(CString(s)) == LeadingRun(s)
  {
    if s != "" && s[0] != '\0' {
      assert CString(s)[1..] == CString(s[1..]) && CString(s)[0] == s[0];
      LeadingRunOf(s[1..]);
    }
  }

  /** Where reading ends: in base 10 at anything that is not a digit, in base 16 only where no more digits
      follow. */
  predicate Ends(s: string, base: nat) {
    if base == 10 then s == "" || !IsDigit(s[0], 10) else NoDigits(CString(s), base)
  }

  lemma {:induction false} ReadEnd(s: string, base: nat, acc: nat, w: Width)
    requires (base == 10 || base == 16) && Ends(s, base)
    ensures Read(s, base, true, acc, w) == acc
  {
    if base == 16 && CString(s) != "" {
      assert CString(s)[0] == s[0] && CString(s)[1..] == CString(s[1..]);
      ReadEnd(s[1..], base, acc, w);
    }
  }

  lemma {:induction false} DigitsMean(u: nat, base: Base)
    requires base == 10 || base == 16
    ensures AllDigits(Digits(u, base), base) && ValueOf(Digits(u, base), base) == u
    decreases u
  {
    var init, r := if u < base then "" else Digits(Div(u, base), base), Mod(u, base);
    DigitMeans(r);
    TimesDiv(u, base);
    if u >= base {
      DigitsMean(Div(u, base), base);
    }
    ValueOfNext(init, DIGITS[r], base);
  }

  lemma TimesDiv(u: nat, base: Base)
    requires base == 10 || base == 16
    ensures Times(base, Div(u, base)) + Mod(u, base) == u
  {
    Division(u, base);
  }

  lemma DigitMeans(r: nat)
    requires r < 16
    ensures IsDigit(DIGITS[r], 16) && DigitValue(DIGITS[r]) == r && (r < 10 ==> IsDigit(DIGITS[r], 10))
  {}

  lemma ValueOfNext(s: string, ch: char, base: nat)
    requires (base == 10 || base == 16) && AllDigits(s, base) && IsDigit(ch, base)
    ensures AllDigits(s + [ch], base) && ValueOf(s + [ch], base) == Times(base, ValueOf(s, base)) + DigitValue(ch)
  {
    assert (s + [ch])[..|s|] == s;
  }

  lemma {:induction false} ZerosMean(n: nat, s: string, base: nat)
    requires (base == 10 || base == 16) && AllDigits(s, base)
    ensures AllDigits(Zeros(n) + s, base) && ValueOf(Zeros(n) + s, base) == ValueOf(s, base)
    decreases |s|, n
  {
    assert forall i | 0 <= i < n :: Zeros(n)[i] == '0' by {
      ZerosAre(n);
    }
    var z := Zeros(n) + s;
    if s != "" {
      var init := s[..|s| - 1];
      assert z[..|z| - 1] == Zeros(n) + init;
      ZerosMean(n, init, base);
    } else if n > 0 {
      ZerosMean(n - 1, s, base);
      ZerosAre(n);
      ZerosAre(n - 1);
      assert z[..n - 1] == Zeros(n - 1) + s;
    }
  }

  lemma {:induction false} ZerosAre(n: nat)
    ensures forall i | 0 <= i < n :: Zeros(n)[i] == '0'
  {
    if n > 0 {
      ZerosAre(n - 1);
    }
  }

  lemma PaddedMean(u: nat, base: Base, n: nat)
    requires base == 10 || base == 16
    ensures var s := PadTo(Digits(u, base), n); s != "" && AllDigits(s, base) && ValueOf(s, base) == u
  {
    var s := Digits(u, base);
    DigitsMean(u, base);
    if |s| < n {
      ZerosMean(n - |s|, s, base);
    }
  }

  /** ToUint recovers what UToStr printed, in a type that has room for it, whatever text stands before it
      and however it ends. */
  lemma UintRoundTrip(u: nat, base: Base, minDigits: nat, p: string, rest: string, w: Width)
    requires (base == 10 || base == 16) && u < if w.Bits32? then 0x1_0000_0000 else 0x1_0000_0000_0000_0000
    requires NoDigits(p, base) && '\0' !in p && Ends(rest, base)
    ensures Read(p + PadTo(Digits(u, base), minDigits) + rest, base, false, 0, w) == u
  {
    var s := PadTo(Digits(u, base), minDigits);
    PaddedMean(u, base, minDigits);
    Regroup3(p, s, rest);
    SkipPrefix(p, s + rest, base, w);
    ReadDigits(s, rest, base, w);
    ReadEnd(rest, base, u, w);
  }

  const MAX_INT: int := 0x7FFF_FFFF

  /** What ToInt32 makes of `s`; nothing if it leaves the range of a 32-bit int. */
  function ReadInt(s: string, found: bool, sign: int, acc: nat): Option<int> {
    if s == "" || s[0] == '\0' then Some(acc * sign)
    else if IsDigit(s[0], 10) then
      if acc * 10 + DigitValue(s[0]) > MAX_INT then None
      else ReadInt(s[1..], true, sign, acc * 10 + DigitValue(s[0]))
    else if found then Some(acc * sign)
    else ReadInt(s[1..], false, if s[0] == '-' then -1 else sign, acc)
  }

  lemma ReadIntNext(s: string, rest: string, found: bool, sign: int, acc: nat)
    requires s != "" && s[0] != '\0' && rest == s[1..]
    ensures ReadInt(s, found, sign, acc) ==
              if IsDigit(s[0], 10) then
                if acc * 10 + DigitValue(s[0]) > MAX_INT then None else ReadInt(rest, true, sign, acc * 10 + DigitValue(s[0]))
              else if found then Some(acc * sign)
              else ReadInt(rest, false, if s[0] == '-' then -1 else sign, acc)
  {}

  lemma ReadIntStep(s: string, i: nat, found: bool, sign: int, acc: nat)
    requires i < |s| && s[i] != '\0'
    ensures ReadInt(s[i..], found, sign, acc) ==
              if IsDigit(s[i], 10) then
                if acc * 10 + DigitValue(s[i]) > MAX_INT then None
                else ReadInt(s[i + 1..], true, sign, acc * 10 + DigitValue(s[i]))
              else if found then Some(acc * sign)
              else ReadInt(s[i + 1..], false, if s[i] == '-' then -1 else sign, acc)
  {
    Cut(s, i);
    ReadIntNext(s[i..], s[i + 1..], found, sign, acc);
  }

  lemma OnlyDigitsReadInt(s: string)
    ensures s != "" && AllDigits(s, 10) && ValueOf(s, 10) <= MAX_INT ==> ReadInt(s, false, 1, 0) == Some(ValueOf(s, 10))
  {
    if s != "" && AllDigits(s, 10) && ValueOf(s, 10) <= MAX_INT {
      ReadIntDigits(s, "", 1);
      assert s + "" == s;
    }
  }

  method ToInt32(str: string) returns (result: Option<int>)
    ensures result == ReadInt(str, false, 1, 0)
    ensures str != "" && AllDigits(str, 10) && ValueOf(str, 10) <= MAX_INT ==> result == Some(ValueOf(str, 10))
  {
    OnlyDigitsReadInt(str);
    var acc: nat, foundFirstDigit, sign := 0, false, 1;
    var i := 0;
    var len := StrLen(str);
    while i < len
      invariant 0 <= i <= len == |CString(str)|
      invariant ReadInt(str, false, 1, 0) == ReadInt(str[i..], foundFirstDigit, sign, acc)
    {
      CharAt(str, i);
      ReadIntStep(str, i, foundFirstDigit, sign, acc);
      if !foundFirstDigit {
        if IsDigit(str[i], 10) {
          foundFirstDigit := true;
        } else if str[i] == '-' {
          sign := -1;
        }
      }
      if foundFirstDigit {
        if '0' <= str[i] <= '9' {
          if acc * 10 + (str[i] - '0') as int > MAX_INT {
            return None;
          }
          acc := acc * 10 + (str[i] - '0') as int;
        } else {
          break;
        }
      }
      i := i + 1;
      len := StrLen(str);
    }
    result := Some(acc * sign);
  }

  lemma {:induction false} ReadIntDigits(s: string, rest: string, sign: int)
    requires s != "" && AllDigits(s, 10) && ValueOf(s, 10) <= MAX_INT
    ensures ReadInt(s + rest, false, sign, 0) == ReadInt(rest, true, sign, ValueOf(s, 10))
  {
    var init, last := s[..|s| - 1], s[|s| - 1];
    var tail := [last] + rest;
    assert s + rest == init + tail && tail[1..] == rest;
    if init != "" {
      ReadIntDigits(init, tail, sign);
    } else {
      assert init + tail == tail;
    }
  }

  /** There is a minus before the first digit, anywhere. */
  predicate Negative(s: string) {
    s != "" && !IsDigit(s[0], 10) && (s[0] == '-' || Negative(s[1..]))
  }

  lemma {:induction false} ReadIntFrom(s: string, sign: int, v: nat)
    requires v <= MAX_INT
    ensures var all := ValueFrom(v, LeadingRun(s), 10);
            ReadInt(s, true, sign, v) == if all > MAX_INT then None else Some(all * sign)
    decreases |s|
  {
    if s != "" && IsDigit(s[0], 10) {
      var next := v * 10 + DigitValue(s[0]);
      assert LeadingRun(s)[1..] == LeadingRun(s[1..]) && LeadingRun(s)[0] == s[0];
      assert ValueFrom(v, LeadingRun(s), 10) == ValueFrom(next, LeadingRun(s[1..]), 10);
      if next <= MAX_INT {
        ReadIntFrom(s[1..], sign, next);
      }
    }
  }

  /** Whatever the text, ToInt32 reads its first run of digits, with a minus if there is any before that, as long
      as the number is one of 32 bits. */
  lemma {:induction false} ReadIntMeans(s: string, sign: int)
    ensures var v, c := ValueOf(FirstRun(CString(s)), 10), CString(s);
            ReadInt(s, false, sign, 0) == if v >= 0x8000_0000 then None else Some(v * (if Negative(c) then -1 else sign))
    decreases |s|
  {
    if s != "" && s[0] != '\0' {
      assert CString(s)[1..] == CString(s[1..]) && CString(s)[0] == s[0];
      if IsDigit(s[0], 10) {
        LeadingRunOf(s);
        ReadIntFrom(s, sign, 0);
        ValueFromIs(LeadingRun(s), 10);
        assert ReadInt(s, false, sign, 0) == ReadInt(s, true, sign, 0);
      } else {
        ReadIntMeans(s[1..], if s[0] == '-' then -1 else sign);
      }
    }
  }

  /** ToInt32 recovers every int that IToStr printed in base 10. */
  lemma IntRoundTrip(num: int, minDigits: nat, rest: string)
    requires -0x8000_0000 < num < 0x8000_0000
    requires rest == "" || !IsDigit(rest[0], 10)
    ensures ReadInt(SignedDigits(num, 10, minDigits) + rest, false, 1, 0) == Some(num)
  {
    if num >= 0 {
      DigitsRead(num, minDigits, rest, 1);
    } else {
      var s := PadTo(Digits(-num, 10), minDigits);
      Regroup3("-", s, rest);
      SkipMinus(s + rest);
      DigitsRead(-num, minDigits, rest, -1);
    }
  }

  lemma DigitsRead(u: nat, minDigits: nat, rest: string, sign: int)
    requires u <= MAX_INT && (rest == "" || !IsDigit(rest[0], 10))
    ensures ReadInt(PadTo(Digits(u, 10), minDigits) + rest, false, sign, 0) == Some(u * sign)
  {
    PaddedMean(u, 10, minDigits);
    ReadIntDigits(PadTo(Digits(u, 10), minDigits), rest, sign);
  }

  lemma SkipMinus(s: string)
    ensures ReadInt("-" + s, false, 1, 0) == ReadInt(s, false, -1, 0)
  {
    assert ("-" + s)[1..] == s;
  }

  lemma NineteenDigits()
    ensures Pow(10, 19) == 1_0000_0000_0000_0000_000
    ensures Pow(16, 19) == 0x1_0000_0000_0000_0000 * 0x1000
  {
    assert Pow(10, 3) == 1000 && Pow(16, 3) == 0x1000;
    assert Pow(10, 4) == 10000 && Pow(16, 4) == 0x1_0000;
    PowAdd(10, 4, 4);
    PowAdd(16, 4, 4);
    PowAdd(10, 8, 8);
    PowAdd(16, 8, 8);
    PowAdd(10, 16, 3);
    PowAdd(16, 16, 3);
  }

  /** Not every 64-bit number fits: in base 16 each does, in base 10 just those below 10^19. */
  lemma WhichFit(u: nat)
    requires u < 0x1_0000_0000_0000_0000
    ensures |Digits(u, 16)| <= 19
    ensures |Digits(u, 10)| <= 19 <==> u < 10_000_000_000_000_000_000
    ensures 10_000_000_000_000_000_000 < 0x1_0000_0000_0000_0000
  {
    NineteenDigits();
    DigitCount(u, 16, 19);
    DigitCount(u, 10, 19);
  }
}
