/** Bytes, and integers stored little end first. */
module Bytes {
  import opened Powers

  type byte = b: int | 0 <= b < 256

  lemma WordSizes()
    ensures Pow(256, 4) == 0x1_0000_0000
    ensures Pow(256, 8) == 0x1_0000_0000_0000_0000
  {
    assert Pow(256, 2) == 0x1_0000 && Pow(256, 3) == 0x100_0000;
    assert Pow(256, 5) == 0x100_0000_0000 && Pow(256, 6) == 0x1_0000_0000_0000 && Pow(256, 7) == 0x100_0000_0000_0000;
  }

  /** The low `width` bytes of `n`. */
  function Le(n: nat, width: nat): (bytes: seq<byte>)
    ensures |bytes| == width
  {
    if width == 0 then [] else [n % 256] + Le(n / 256, width - 1)
  }

  function FromLe(bytes: seq<byte>): (n: nat)
  {
    if bytes == [] then 0 else bytes[0] + 256 * FromLe(bytes[1..])
  }

  /** The bytes are the digits of the number in base 256, the lowest first. */
  lemma {:induction false} LeByte(n: nat, width: nat, i: nat)
    requires i < width
    ensures Le(n, width)[i] == n / Pow(256, i) % 256
  {
    if i > 0 {
      LeByte(n / 256, width - 1, i - 1);
      DivDiv(n, Pow(256, i - 1));
    }
  }

  lemma DivDiv(n: nat, p: nat)
    requires p > 0
    ensures n / (256 * p) == n / 256 / p
  {
    DigitMod(n, p);
    var q := n / 256;
    assert n == 256 * q + n % 256 && q == p * (q / p) + q % p;
    assert n == (256 * p) * (q / p) + (n % 256 + 256 * (q % p)) by {
      assert 256 * (p * (q / p)) == (256 * p) * (q / p);
    }
    assert q % p <= p - 1;
    ModUnique(n, 256 * p, q / p, n % 256 + 256 * (q % p));
  }

  lemma {:induction false} LeRoundTrip(n: nat, width: nat)
    ensures FromLe(Le(n, width)) == n % Pow(256, width)
  {
    if width > 0 {
      LeRoundTrip(n / 256, width - 1);
      DigitMod(n, Pow(256, width - 1));
    }
  }

  lemma DigitMod(n: nat, p: nat)
    requires p > 0
    ensures n % (256 * p) == n % 256 + 256 * ((n / 256) % p)
  {
    var q := n / 256;
    var r := n % 256 + 256 * (q % p);
    assert q == p * (q / p) + q % p;
    assert n == 256 * q + n % 256;
    assert n == (256 * p) * (q / p) + r by {
      assert 256 * (p * (q / p)) == (256 * p) * (q / p);
    }
    assert 0 <= r < 256 * p by {
      assert q % p <= p - 1;
      assert 256 * (q % p) <= 256 * (p - 1) == 256 * p - 256;
    }
    ModUnique(n, 256 * p, q / p, r);
  }

  lemma ModUnique(n: int, m: nat, q: int, r: int)
    requires 0 <= r < m && n == m * q + r
    ensures n % m == r && n / m == q
  {
    var q', r' := n / m, n % m;
    assert m * (q - q') == r' - r;
    MulAtLeast(m, q - q');
  }

  lemma MulAtLeast(m: nat, d: int)
    ensures d >= 1 ==> m * d >= m
    ensures d <= -1 ==> m * d + m <= 0
  {}

  /** What has been written in `width` bytes and fits is read back. */
  lemma LeInverse(n: nat, width: nat)
    requires n < Pow(256, width)
    ensures FromLe(Le(n, width)) == n
  {
    LeRoundTrip(n, width);
  }

  lemma LeInjective(m: nat, n: nat, width: nat)
    requires m < Pow(256, width) && n < Pow(256, width) && Le(m, width) == Le(n, width)
    ensures m == n
  {
    LeInverse(m, width);
    LeInverse(n, width);
  }

  lemma {:induction false} FromLeInverse(bytes: seq<byte>)
    ensures FromLe(bytes) < Pow(256, |bytes|)
    ensures Le(FromLe(bytes), |bytes|) == bytes
  {
    if bytes != [] {
      FromLeInverse(bytes[1..]);
      var low: int, rest := bytes[0], FromLe(bytes[1..]);
      assert (low + 256 * rest) % 256 == low && (low + 256 * rest) / 256 == rest;
    }
  }

  lemma {:induction false} LeSplit(lo: nat, hi: nat, width: nat, more: nat)
    requires lo < Pow(256, width)
    ensures Le(lo + Pow(256, width) * hi, width + more) == Le(lo, width) + Le(hi, more)
  {
    if width == 0 {
      assert Le(lo, 0) == [];
    } else {
      var p := Pow(256, width - 1);
      assert lo / 256 < p;
      var n := lo + Pow(256, width) * hi;
      assert n == 256 * (lo / 256 + p * hi) + lo % 256 by {
        assert Pow(256, width) * hi == 256 * (p * hi);
      }
      assert n / 256 == lo / 256 + p * hi && n % 256 == lo % 256;
      LeSplit(lo / 256, hi, width - 1, more);
    }
  }
}
