/** The MD5 context: buffering, counting and padding around a block function that is left open. */
module Md5 {
  import opened Bytes

  type Word = w: int | 0 <= w < 0x1_0000_0000

  const WORD: nat := 0x1_0000_0000

  datatype State = State(a: Word, b: Word, c: Word, d: Word)

  /** What one 64-byte block does to the state. */
  type Transform = (State, seq<byte>) -> State

  const INIT := State(0x67452301, 0xefcdab89, 0x98badcfe, 0x10325476)

  /** The state after whole blocks; a partial block at the end is ignored. */
  function Fold(t: Transform, s: State, m: seq<byte>): State
    decreases |m|
  {
    if |m| < 64 then s else Fold(t, t(s, m[..64]), m[64..])
  }

  /** Section 3.1 of RFC 1321: a byte 0x80, then the fewest zeros that leave 8 bytes of the last block. */
  function ZerosFor(n: nat): (k: nat)
    ensures k < 64 && (n + 1 + k) % 64 == 56
  {
    (119 - n % 64) % 64
  }

  lemma PaddedLength(n: nat, k: nat)
    requires (n + 1 + k) % 64 == 56
    ensures (n + 1 + k + 8) % 64 == 0
  {}

  /** Section 3.2: then the bit length modulo 2^64, in two words, low word and low byte first. */
  function Padded(m: seq<byte>): (p: seq<byte>)
    ensures |p| % 64 == 0
  {
    PaddedLength(|m|, ZerosFor(|m|));
    m + [0x80] + seq(ZerosFor(|m|), _ => 0) + Le(BitCount(|m|), 8)
  }

  function BitCount(n: nat): (bits: nat)
    ensures 8 * n < WORD * WORD ==> bits == 8 * n
  {
    8 * n % (WORD * WORD)
  }

  /** Words as bytes, low byte first. */
  function LeWords(words: seq<Word>): (bytes: seq<byte>)
    ensures |bytes| == 4 * |words|
  {
    if words == [] then [] else LeWords(words[..|words| - 1]) + Le(words[|words| - 1], 4)
  }

  function EncodeState(s: State): (bytes: seq<byte>)
    ensures |bytes| == 16
  {
    LeWords([s.a, s.b, s.c, s.d])
  }

  /** Section 3.3 of RFC 1321 gives the initial state by its bytes, low byte first, which are also the digest that
      a block function without effect gives. */
  lemma InitBytes()
    ensures EncodeState(INIT) == [0x01, 0x23, 0x45, 0x67, 0x89, 0xab, 0xcd, 0xef,
                                  0xfe, 0xdc, 0xba, 0x98, 0x76, 0x54, 0x32, 0x10]
  {
    FourWords(INIT.a, INIT.b, INIT.c, INIT.d);
    FourBytes([0x01, 0x23, 0x45, 0x67]);
    FourBytes([0x89, 0xab, 0xcd, 0xef]);
    FourBytes([0xfe, 0xdc, 0xba, 0x98]);
    FourBytes([0x76, 0x54, 0x32, 0x10]);
  }

  lemma FourWords(a: Word, b: Word, c: Word, d: Word)
    ensures LeWords([a, b, c, d]) == Le(a, 4) + Le(b, 4) + Le(c, 4) + Le(d, 4)
  {
    NextWord([], a);
    NextWord([a], b);
    NextWord([a, b], c);
    NextWord([a, b, c], d);
    assert [] + [a] == [a] && [a] + [b] == [a, b] && [a, b] + [c] == [a, b, c] && [a, b, c] + [d] == [a, b, c, d];
    assert [] + Le(a, 4) == Le(a, 4);
  }

  lemma NextWord(words: seq<Word>, w: Word)
    ensures LeWords(words + [w]) == LeWords(words) + Le(w, 4)
  {
    assert (words + [w])[..|words|] == words;
  }

  /** A padded message is the message, a byte 0x80, as few zeros as there can be, and its bit count in eight
      bytes, so that it has whole blocks. */
  lemma PaddedIs(m: seq<byte>)
    ensures var p, n := Padded(m), |Padded(m)|;
            && n % 64 == 0 && |m| + 9 <= n < |m| + 9 + 64
            && p[..|m|] == m && p[|m|] == 0x80
            && (forall i | |m| < i < n - 8 :: p[i] == 0)
            && p[n - 8..] == Le(8 * |m| % 0x1_0000_0000_0000_0000, 8)
  {
    PaddedEnd(m);
  }

  /** The digest of a message, for the block function `t`. */
  function Digest(t: Transform, m: seq<byte>): (d: seq<byte>)
    ensures |d| == 16
  {
    EncodeState(Fold(t, INIT, Padded(m)))
  }

  lemma {:induction false} FoldSplit(t: Transform, s: State, m: seq<byte>, n: seq<byte>)
    requires |m| % 64 == 0
    ensures Fold(t, s, m + n) == Fold(t, Fold(t, s, m), n)
    decreases |m|
  {
    if m == [] {
      assert m + n == n;
    } else {
      assert (m + n)[..64] == m[..64] && (m + n)[64..] == m[64..] + n;
      FoldSplit(t, t(s, m[..64]), m[64..], n);
    }
  }

  /** One more whole block of `m`. */
  lemma FoldNext(t: Transform, s: State, m: seq<byte>, n: nat)
    requires n % 64 == 0 && n + 64 <= |m|
    ensures Fold(t, s, m[..n + 64]) == t(Fold(t, s, m[..n]), m[n..n + 64])
  {
    var block := m[n..n + 64];
    assert m[..n + 64] == m[..n] + block;
    FoldSplit(t, s, m[..n], block);
    assert block[..64] == block && block[64..] == [];
  }

  /** The number of bytes of `n` that are in whole blocks. */
  function Whole(n: nat): (w: nat)
    ensures w <= n < w + 64
  {
    if n < 64 then 0 else 64 + Whole(n - 64)
  }

  lemma {:induction false} WholeMeans(n: nat)
    ensures Whole(n) == n - n % 64 && Whole(n) % 64 == 0
    decreases n
  {
    if n >= 64 {
      WholeMeans(n - 64);
    }
  }

  /** The two count words after `n` bytes, each of eight bits. */
  ghost function CountWords(n: nat): (Word, Word) {
    if n == 0 then (0, 0)
    else
      var (lo, hi) := CountWords(n - 1);
      if lo + 8 < WORD then (lo + 8, hi) else (lo + 8 - WORD, if hi + 1 < WORD then hi + 1 else 0)
  }

  ghost predicate Counts(lo: Word, hi: Word, n: nat) {
    (lo, hi) == CountWords(n)
  }

  /** They are the low and the high word of the bit count modulo 2^64. */
  lemma {:induction false} CountsMeans(lo: Word, hi: Word, n: nat)
    ensures Counts(lo, hi, n) <==> lo + WORD * hi == BitCount(n)
    decreases n
  {
    if n > 0 {
      var (lo', hi') := CountWords(n - 1);
      CountsMeans(lo', hi', n - 1);
      var q := 8 * (n - 1) / (WORD * WORD);
      assert 8 * (n - 1) == WORD * WORD * q + (lo' + WORD * hi');
      var sum := lo' + WORD * hi' + 8;
      if sum < WORD * WORD {
        ModUnique(8 * n, WORD * WORD, q, sum);
      } else {
        ModUnique(8 * n, WORD * WORD, q + 1, sum - WORD * WORD);
      }
    }
  }

  lemma CountIndex(lo: Word, hi: Word, n: nat)
    requires Counts(lo, hi, n)
    ensures lo / 8 % 64 == n % 64
  {
    CountsMeans(lo, hi, n);
    var q := 8 * n / (WORD * WORD);
    assert 8 * n == WORD * WORD * q + lo + WORD * hi;
    var z := WORD * 0x80_0000 * q + 0x80_0000 * hi;
    assert n == lo / 8 + 64 * z;
    ModUnique(n, 64, z + lo / 8 / 64, lo / 8 % 64);
  }

  lemma CountAdd(lo: Word, hi: Word, n: nat, len: nat)
    requires Counts(lo, hi, n) && len < WORD
    ensures var shifted := 8 * len % WORD;
            var lo' := (lo + shifted) % WORD;
            var hi' := if lo' < shifted then (hi + 1) % WORD else hi;
            Counts(lo', (hi' + len / 0x2000_0000) % WORD, n + len)
  {
    CountsMeans(lo, hi, n);
    var shifted := 8 * len % WORD;
    var lo' := (lo + shifted) % WORD;
    var hi' := if lo' < shifted then (hi + 1) % WORD else hi;
    var hi2 := (hi' + len / 0x2000_0000) % WORD;
    var m := WORD * WORD;
    var k := AddWords(lo, hi, len, lo', hi2);
    var q := 8 * n / m;
    assert 8 * (n + len) == m * (q + k) + (lo' + WORD * hi2);
    ModUnique(8 * (n + len), m, q + k, lo' + WORD * hi2);
    CountsMeans(lo', hi2, n + len);
  }

  /** The code's carry between the two words; the sum loses multiples of 2^64. */
  lemma AddWords(lo: Word, hi: Word, len: nat, lo': Word, hi2: Word) returns (k: int)
    requires len < WORD && lo' == (lo + 8 * len % WORD) % WORD
    requires hi2 == ((if lo' < 8 * len % WORD then (hi + 1) % WORD else hi) + len / 0x2000_0000) % WORD
    ensures lo + WORD * hi + 8 * len == lo' + WORD * hi2 + WORD * WORD * k
  {
    var shifted := 8 * len % WORD;
    var carry := if lo' < shifted then 1 else 0;
    assert lo + shifted == lo' + WORD * carry;
    assert 8 * len == shifted + WORD * (len / 0x2000_0000);
    var hi1 := if carry == 1 then (hi + 1) % WORD else hi;
    var wrapped := if carry == 1 && hi + 1 == WORD then 1 else 0;
    assert hi + carry == hi1 + WORD * wrapped;
    var sum := hi1 + len / 0x2000_0000;
    assert sum == hi2 + WORD * (sum / WORD);
    k := wrapped + sum / WORD;
  }

  method Encode(output: array<byte>, input: seq<Word>)
    requires output.Length == 4 * |input|
    modifies output
    ensures output[..] == LeWords(input)
  {
    for i := 0 to |input|
      invariant output[..4 * i] == LeWords(input[..i])
    {
      ghost var done := output[..4 * i];
      EncodeWord(output, 4 * i, input[i]);
      assert input[..i + 1][..i] == input[..i];
      assert output[..4 * (i + 1)] == done + Le(input[i], 4);
    }
    assert input[..|input|] == input && output[..output.Length] == output[..];
  }

  method EncodeWord(output: array<byte>, j: nat, word: Word)
    requires j + 4 <= output.Length
    modifies output
    ensures output[..j] == old(output[..j]) && output[j..j + 4] == Le(word, 4)
  {
    output[j] := word % 256;
    output[j + 1] := word / 0x100 % 256;
    output[j + 2] := word / 0x1_0000 % 256;
    output[j + 3] := word / 0x100_0000 % 256;
    ghost var bytes := output[j..j + 4];
    BytesOf(word);
    FourBytes(bytes);
  }

  function WordOf(b: seq<byte>): (u: Word)
    requires |b| == 4
  {
    var b0: int, b1: int, b2: int, b3: int := b[0], b[1], b[2], b[3];
    b0 + 0x100 * b1 + 0x1_0000 * b2 + 0x100_0000 * b3
  }

  lemma FourBytes(b: seq<byte>)
    requires |b| == 4
    ensures Le(WordOf(b), 4) == b
  {
    var b1: int, b2: int, b3: int := b[1], b[2], b[3];
    LowByte(b1 + 0x100 * (b2 + 0x100 * b3), b[0], 3);
    LowByte(b2 + 0x100 * b3, b[1], 2);
    LowByte(b3, b[2], 1);
    LowByte(0, b[3], 0);
  }

  lemma BytesOf(u: Word)
    ensures WordOf([u % 0x100, u / 0x100 % 0x100, u / 0x1_0000 % 0x100, u / 0x100_0000 % 0x100]) == u
  {
    var u1, u2, u3 := u / 0x100, u / 0x1_0000, u / 0x100_0000;
    assert u2 == u1 / 0x100 && u3 == u2 / 0x100;
    assert u == u % 0x100 + 0x100 * u1 && u1 == u1 % 0x100 + 0x100 * u2 && u2 == u2 % 0x100 + 0x100 * u3;
  }

  lemma LowByte(n: nat, low: byte, width: nat)
    ensures Le(low + 0x100 * n, width + 1) == [low] + Le(n, width)
  {
    assert (low + 0x100 * n) % 256 == low && (low + 0x100 * n) / 256 == n;
  }

  method Decode(input: seq<byte>) returns (output: seq<Word>)
    requires |input| % 4 == 0
    ensures LeWords(output) == input
  {
    output := [];
    for i := 0 to |input| / 4
      invariant |output| == i && LeWords(output) == input[..4 * i]
    {
      var j := 4 * i;
      var bytes := input[j..j + 4];
      var word := WordOf(bytes);
      FourBytes(bytes);
      output := output + [word];
      assert output[..i] + [word] == output;
      assert input[..j + 4] == input[..j] + bytes;
    }
  }

  method Memcpy(output: array<byte>, at: nat, input: seq<byte>)
    requires at + |input| <= output.Length
    modifies output
    ensures output[..] == old(output[..at]) + input + old(output[at + |input|..])
  {
    for i := 0 to |input|
      invariant output[..at] == old(output[..at])
      invariant output[at..at + i] == input[..i]
      invariant output[at + i..] == old(output[at + i..])
    {
      output[at + i] := input[i];
    }
  }

  const PADDING: seq<byte> := [0x80] + seq(63, _ => 0)

  class Context {
    const transform: Transform
    const buffer: array<byte>
    var countLo: Word
    var countHi: Word
    var state: State
    ghost var message: seq<byte>  // all bytes hashed since Init

    ghost predicate Valid()
      reads this, buffer
    {
      && buffer.Length == 64
      && Counts(countLo, countHi, |message|)
      && state == Fold(transform, INIT, message[..Whole(|message|)])
      && buffer[..|message| - Whole(|message|)] == message[Whole(|message|)..]
    }

    constructor (transform: Transform)
      ensures Valid() && message == [] && this.transform == transform && fresh(buffer)
    {
      this.transform := transform;
      buffer := new byte[64](_ => 0);
      countLo, countHi, state, message := 0, 0, INIT, [];
    }

    method Init()
      requires buffer.Length == 64
      modifies this
      ensures Valid() && message == []
    {
      countLo, countHi := 0, 0;
      state := INIT;
      message := [];
    }

    /** Adds the bits of `len` bytes to the two count words. */
    method CountBits(len: nat)
      requires Counts(countLo, countHi, |message|) && len < WORD
      modifies this`countLo, this`countHi
      ensures Counts(countLo, countHi, |message| + len)
    {
      CountAdd(countLo, countHi, |message|, len);
      var shifted := 8 * len % WORD;
      countLo := (countLo + shifted) % WORD;
      if countLo < shifted {
        countHi := (countHi + 1) % WORD;
      }
      countHi := (countHi + len / 0x2000_0000) % WORD;
    }

    /** The loop of Update: the whole blocks of the input from `start` on. */
    method TransformBlocks(input: seq<byte>, start: nat, ghost m: seq<byte>) returns (i: nat)
      requires start <= |input| && (|m| + start) % 64 == 0 && |m| % 64 + |input| < WORD
      requires state == Fold(transform, INIT, (m + input)[..|m| + start])
      modifies this`state
      ensures start <= i <= |input| < i + 64 && (|m| + i) % 64 == 0
      ensures state == Fold(transform, INIT, (m + input)[..|m| + i])
    {
      i := start;
      while Guard(i, |input|)
        invariant start <= i <= |input| && (|m| + i) % 64 == 0
        invariant state == Fold(transform, INIT, (m + input)[..|m| + i])
        decreases |input| - i
      {
        NoWrap(|m|, i, |input|);
        NextBlock(transform, m, input, i);
        state := transform(state, input[i..i + 64]);
        i := (i + 64) % WORD;
      }
      NoWrap(|m|, i, |input|);
    }

    method Update(input: seq<byte>)
      requires Valid()
      requires |message| - Whole(|message|) + |input| < WORD
      modifies this, buffer
      ensures Valid() && message == old(message) + input
    {
      CountIndex(countLo, countHi, |message|);
      WholeMeans(|message|);
      var index := countLo / 8 % 64;
      CountBits(|input|);
      var partLen := 64 - index;
      var i := 0;
      ghost var m := message;
      if |input| >= partLen {
        i := FillBlock(input, index, partLen, m);
        index := 0;
      }
      Keep(input, index, i, m);
    }

    /** Update, if the input fills the buffer: transforms that and all whole blocks of the input. */
    method FillBlock(input: seq<byte>, index: nat, partLen: nat, ghost m: seq<byte>) returns (i: nat)
      requires buffer.Length == 64 && index == |m| % 64 && partLen == 64 - index <= |input| < WORD - index
      requires state == Fold(transform, INIT, m[..Whole(|m|)]) && buffer[..index] == m[Whole(|m|)..]
      modifies this`state, buffer
      ensures partLen <= i <= |input| < i + 64 && (|m| + i) % 64 == 0
      ensures state == Fold(transform, INIT, (m + input)[..|m| + i])
    {
      WholeMeans(|m|);
      Memcpy(buffer, index, input[..partLen]);
      assert buffer[..] == m[Whole(|m|)..] + input[..partLen];
      FirstBlock(transform, m, Whole(|m|), input, partLen, buffer[..]);
      state := transform(state, buffer[..]);
      i := TransformBlocks(input, partLen, m);
    }

    /** The end of Update: buffers the rest of the input. */
    method Keep(input: seq<byte>, index: nat, i: nat, ghost m: seq<byte>)
      requires buffer.Length == 64 && i <= |input| && index + |input| - i < 64
      requires if i == 0 then index == |m| % 64 && buffer[..index] == m[Whole(|m|)..] else index == 0 && (|m| + i) % 64 == 0
      requires state == if i == 0 then Fold(transform, INIT, m[..Whole(|m|)]) else Fold(transform, INIT, (m + input)[..|m| + i])
      requires Counts(countLo, countHi, |m + input|)
      modifies this`message, buffer
      ensures Valid() && message == m + input
    {
      WholeMeans(|m|);
      ghost var before := buffer[..index];
      Memcpy(buffer, index, input[i..]);
      assert buffer[..index + |input| - i] == before + input[i..];
      Buffered(m, input, index, i, buffer[..]);
      message := m + input;
      ghost var rest := |message| - Whole(|message|);
      assert buffer[..][..rest] == buffer[..rest];
    }

    method Final() returns (digest: seq<byte>)
      requires Valid()
      modifies this, buffer
      ensures digest == Digest(transform, old(message))
      ensures countLo == 0 && countHi == 0 && state == State(0, 0, 0, 0) && buffer[..] == seq(buffer.Length, _ => 0)
    {
      Pad();
      var output := new byte[16];
      Encode(output, [state.a, state.b, state.c, state.d]);
      digest := output[..];
      Clear();
    }

    method Clear()
      modifies this`countLo, this`countHi, this`state, buffer
      ensures countLo == 0 && countHi == 0 && state == State(0, 0, 0, 0) && buffer[..] == seq(buffer.Length, _ => 0)
    {
      countLo, countHi, state := 0, 0, State(0, 0, 0, 0);
      forall i | 0 <= i < buffer.Length {
        buffer[i] := 0;
      }
    }

    /** Padding, and then the count as it was before that. */
    method Pad()
      requires Valid()
      modifies this, buffer
      ensures Valid() && state == Fold(transform, INIT, Padded(old(message)))
    {
      ghost var padded := Padded(message);
      var bits := new byte[8];
      Encode(bits, [countLo, countHi]);
      CountIndex(countLo, countHi, |message|);
      var index := countLo / 8 % 64;
      var padLen := if index < 56 then 56 - index else 120 - index;
      var padding, count := PADDING[..padLen], bits[..];
      PaddedByParts(message, countLo, countHi, padding, count);
      assert padded == message + padding + count;
      Update(padding);
      Update(count);
      WholeMeans(|padded|);
      assert padded[..|padded|] == padded;
    }
  }

  lemma TwoWords(lo: Word, hi: Word, n: nat)
    requires Counts(lo, hi, n)
    ensures LeWords([lo, hi]) == Le(BitCount(n), 8)
  {
    WordPair(lo, hi);
    CountsMeans(lo, hi, n);
    CountBytes(lo, hi, BitCount(n));
  }

  lemma WordPair(lo: Word, hi: Word)
    ensures LeWords([lo, hi]) == Le(lo, 4) + Le(hi, 4)
  {
    NextWord([], lo);
    NextWord([lo], hi);
    assert [] + [lo] == [lo] && [lo] + [hi] == [lo, hi] && [] + Le(lo, 4) == Le(lo, 4);
  }

  lemma CountBytes(lo: Word, hi: Word, bits: nat)
    requires bits == lo + WORD * hi
    ensures Le(bits, 8) == Le(lo, 4) + Le(hi, 4)
  {
    WordSizes();
    LeSplit(lo, hi, 4, 4);
  }

  lemma PadLength(n: nat)
    ensures 1 + ZerosFor(n) == if n % 64 < 56 then 56 - n % 64 else 120 - n % 64
  {}

  lemma PaddedByParts(m: seq<byte>, lo: Word, hi: Word, padding: seq<byte>, count: seq<byte>)
    requires Counts(lo, hi, |m|) && count == LeWords([lo, hi])
    requires padding == PADDING[..if |m| % 64 < 56 then 56 - |m| % 64 else 120 - |m| % 64]
    ensures Padded(m) == m + padding + count
  {
    TwoWords(lo, hi, |m|);
    PadLength(|m|);
    assert [0x80] + seq(ZerosFor(|m|), _ => 0) == PADDING[..1 + ZerosFor(|m|)];
  }

  lemma PaddedEnd(m: seq<byte>)
    ensures var p := Padded(m); |p| >= |m| + 8 && p[..|m|] == m && p[|p| - 8..] == Le(BitCount(|m|), 8)
  {}

  /** Padding loses nothing: two messages that a 64-bit count can tell apart never pad to the same blocks. */
  lemma PaddingInjective(m: seq<byte>, m': seq<byte>)
    requires 8 * |m| < WORD * WORD && 8 * |m'| < WORD * WORD && Padded(m) == Padded(m')
    ensures m == m'
  {
    PaddedEnd(m);
    PaddedEnd(m');
    WordSizes();
    LeInjective(8 * |m|, 8 * |m'|, 8);
  }

  function Flatten(chunks: seq<seq<byte>>): seq<byte> {
    if chunks == [] then [] else Flatten(chunks[..|chunks| - 1]) + chunks[|chunks| - 1]
  }

  /** However a message is cut up, the digest is that of the whole. */
  method DigestOfChunks(transform: Transform, chunks: seq<seq<byte>>) returns (digest: seq<byte>)
    requires forall c <- chunks :: |c| <= WORD - 64
    ensures digest == Digest(transform, Flatten(chunks))
  {
    var context := new Context(transform);
    for i := 0 to |chunks|
      invariant context.Valid() && fresh(context) && fresh(context.buffer) && context.transform == transform
      invariant context.message == Flatten(chunks[..i])
    {
      context.Update(chunks[i]);
      assert chunks[..i + 1][..i] == chunks[..i];
    }
    assert chunks[..|chunks|] == chunks;
    digest := context.Final();
  }

  /** The loop guard of Update, in 32-bit arithmetic. */
  predicate Guard(i: nat, len: nat) {
    (i + 63) % WORD < len
  }

  /** The loop of Update gets to index `i`, starting from `index` buffered bytes and `len` bytes of input. */
  ghost predicate LoopReaches(index: nat, len: nat, i: nat) {
    && 64 - index <= i < WORD
    && (index + i) % 64 == 0
    && forall j: nat | 64 - index <= j < i && (index + j) % 64 == 0 :: Guard(j, len)
  }

  /** The guard keeps every block inside the input exactly when the buffered bytes and the input
      together are fewer than 2^32. */
  lemma GuardSafeIff(index: nat, len: nat)
    requires index < 64 && 64 - index <= len < WORD
    ensures (forall i: nat :: LoopReaches(index, len, i) && Guard(i, len) ==> i + 64 <= len) <==> index + len < WORD
  {
    if index + len < WORD {
      forall i: nat | LoopReaches(index, len, i) && Guard(i, len) ensures i + 64 <= len {
        if i > 64 - index {
          assert i >= 128 - index && (index + (i - 64)) % 64 == 0;
          assert Guard(i - 64, len);
        }
        NoWrap(index, i, len);
      }
    } else {
      var i: nat := WORD - index;
      assert LoopReaches(index, len, i) by {
        forall j: nat | 64 - index <= j < i && (index + j) % 64 == 0 ensures Guard(j, len) {
          assert index + j <= WORD - 64;
        }
      }
      assert Guard(i, len);
    }
  }

  /** At the block boundaries of the message, the 32-bit loop index does not wrap. */
  lemma NoWrap(n: nat, i: nat, len: nat)
    requires (n + i) % 64 == 0 && i <= len && n % 64 + len < WORD
    ensures (i + 63) % WORD == i + 63
    ensures i + 63 < len ==> (i + 64) % WORD == i + 64 && (n + (i + 64)) % 64 == 0
  {
    assert (n % 64 + i) % 64 == 0;
    assert n % 64 + i <= WORD - 64;
  }

  /** What is left over after `i` bytes of input is the last partial block. */
  lemma Buffered(m: seq<byte>, input: seq<byte>, index: nat, i: nat, buffer: seq<byte>)
    requires i <= |input| && |buffer| == 64 && index + |input| - i < 64
    requires if i == 0 then index == |m| - Whole(|m|) else index == 0 && (|m| + i) % 64 == 0
    requires buffer[..index + |input| - i] == (if i == 0 then m[Whole(|m|)..] else []) + input[i..]
    ensures var all := m + input;
            && Whole(|all|) == |m| + i - index
            && buffer[..|all| - Whole(|all|)] == all[Whole(|all|)..]
            && (i == 0 ==> all[..Whole(|all|)] == m[..Whole(|m|)])
  {
    var all, w := m + input, |m| + i - index;
    WholeMeans(|m|);
    WholeIs(|all|, w);
    assert all[w..] == (if i == 0 then m[w..] else []) + input[i..];
  }

  lemma WholeIs(n: nat, w: nat)
    requires w % 64 == 0 && w <= n < w + 64
    ensures Whole(n) == w
  {
    WholeMeans(n);
  }

  /** The bytes of `m` beyond its whole blocks, filled up from the input, are its next block. */
  lemma FirstBlock(t: Transform, m: seq<byte>, whole: nat, input: seq<byte>, part: nat, block: seq<byte>)
    requires whole % 64 == 0 && whole <= |m| && part <= |input| && whole + 64 == |m| + part
    requires block == m[whole..] + input[..part]
    ensures Fold(t, INIT, (m + input)[..|m| + part]) == t(Fold(t, INIT, m[..whole]), block)
  {
    var all := m + input;
    assert all[whole..whole + 64] == block && all[..whole] == m[..whole];
    FoldNext(t, INIT, all, whole);
  }

  lemma NextBlock(t: Transform, m: seq<byte>, input: seq<byte>, i: nat)
    requires (|m| + i) % 64 == 0 && i + 64 <= |input|
    ensures Fold(t, INIT, (m + input)[..|m| + i + 64]) == t(Fold(t, INIT, (m + input)[..|m| + i]), input[i..i + 64])
  {
    var all := m + input;
    assert all[|m| + i..|m| + i + 64] == input[i..i + 64];
    FoldNext(t, INIT, all, |m| + i);
  }
}
